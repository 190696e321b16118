/** The reference risk arithmetic (interface/src/lib.rs) and the corpus formulas tuned against
    it (engine/src/corpus.rs). Every result type below is a machine width, so the absence of
    overflow is checked wherever a product is formed. */
module Reference {
  import opened Prelude
  import opened Text

  const LAMPORTS_PER_SOL: u64 := 1_000_000_000
  const BPS_DENOMINATOR: u128 := 10_000
  const HEALTH_SCALE: u64 := 1_000_000
  const HEALTH_INFINITE: u64 := U64_MAX
  const COLLATERAL_DECIMALS: u8 := 9
  const DEBT_DECIMALS: u8 := 6
  const DEBT_PRICE_MICRO_USD: u64 := 1_000_000

  /** The largest collateral value two 64-bit factors can produce. */
  const COLLATERAL_VALUE_MAX: int := 340_282_366_920_938_463_426_481_119_284

  lemma ProductBound(a: nat, b: nat, x: nat, y: nat)
    requires a <= x && b <= y
    ensures a * b <= x * y
  {
  }

  /** The defining property of a floor quotient. */
  lemma QuotientIffProduct(n: nat, d: nat, t: nat)
    requires d > 0
    ensures n / d >= t <==> n >= t * d
  {
    var q := n / d;
    assert n == q * d + n % d;
    if q >= t {
      ProductBound(t, d, q, d);
    } else {
      ProductBound(q + 1, d, t, d);
    }
  }

  lemma FloorBounds(n: nat, d: nat)
    requires d > 0
    ensures n / d * d <= n < (n / d + 1) * d
  {
    assert n == n / d * d + n % d;
  }

  lemma QuotientMonotone(a: nat, b: nat, d: nat)
    requires d > 0 && a <= b
    ensures a / d <= b / d
  {
    QuotientIffProduct(a, d, a / d);
    QuotientIffProduct(b, d, a / d);
  }

  function ValueMicroUsd(amount: u64, decimals: u8, price: u64): u128 {
    ProductBound(amount, price, U64_MAX, U64_MAX);
    Pow10Positive(decimals);
    var scale := Pow10(decimals);
    if scale > U128_MAX then 0
    else
      QuotientShrinks(amount * price, scale);
      amount * price / scale
  }

  lemma QuotientShrinks(n: nat, d: nat)
    requires d > 0
    ensures 0 <= n / d <= n
    ensures n < d ==> n / d == 0
  {
    QuotientIffProduct(n, d, n + 1);
    ProductBound(n + 1, 1, n + 1, d);
    QuotientIffProduct(n, d, 1);
  }

  /** The early return for huge exponents changes nothing: for all 256 exponents the result is
      the true floor of the scaled product. */
  lemma ValueIsTrueFloor(amount: u64, decimals: u8, price: u64)
    ensures Pow10(decimals) > 0
    ensures ValueMicroUsd(amount, decimals, price) == amount * price / Pow10(decimals)
  {
    Pow10Positive(decimals);
    ProductBound(amount, price, U64_MAX, U64_MAX);
    QuotientShrinks(amount * price, Pow10(decimals));
    hide Pow10;
  }

  function CollateralValue(collateral: u64, price: u64): (v: u128)
    ensures v <= COLLATERAL_VALUE_MAX
    ensures v == collateral * price / 1_000_000_000
  {
    ProductBound(collateral, price, U64_MAX, U64_MAX);
    Billion();
    QuotientMonotone(collateral * price, U64_MAX * U64_MAX, 1_000_000_000);
    ValueMicroUsd(collateral, COLLATERAL_DECIMALS, price)
  }

  lemma Billion()
    ensures Pow10(9) == 1_000_000_000 && Pow10(6) == 1_000_000
  {
  }

  function DebtValue(debt: u64): (v: u128) {
    ValueMicroUsd(debt, DEBT_DECIMALS, DEBT_PRICE_MICRO_USD)
  }

  /** The pegged debt asset values to its own amount. */
  lemma DebtIsPegged(debt: u64)
    ensures DebtValue(debt) == debt
  {
  }

  function AdjustedCollateral(collateral: u64, price: u64, bps: u16): (v: u128)
    ensures v * HEALTH_SCALE <= U128_MAX
  {
    ProductBound(CollateralValue(collateral, price), bps, COLLATERAL_VALUE_MAX, 0xFFFF);
    QuotientMonotone(CollateralValue(collateral, price) * bps, COLLATERAL_VALUE_MAX * 0xFFFF, 10_000);
    CollateralValue(collateral, price) * bps / BPS_DENOMINATOR
  }

  function HealthFactor(collateral: u64, debt: u64, price: u64, bps: u16): u64 {
    if debt == 0 then HEALTH_INFINITE
    else
      QuotientShrinks(AdjustedCollateral(collateral, price, bps) * 1_000_000, debt);
      var health := AdjustedCollateral(collateral, price, bps) * 1_000_000 / debt;
      if health <= U64_MAX then health else HEALTH_INFINITE
  }

  /** Both valuations round down: collateral to a micro-dollar, its adjusted worth to one again. */
  lemma AdjustedIsFloor(collateral: u64, price: u64, bps: u16)
    ensures var value, adjusted := CollateralValue(collateral, price), AdjustedCollateral(collateral, price, bps);
      && value * 1_000_000_000 <= collateral * price < (value + 1) * 1_000_000_000
      && adjusted * 10_000 <= value * bps < (adjusted + 1) * 10_000
  {
    hide CollateralValue;
    var value := CollateralValue(collateral, price);
    ProductBound(0, 0, value, bps);
    FloorBounds(value * bps, 10_000);
  }

  predicate IsLiquidatable(health: u64) {
    health < HEALTH_SCALE
  }

  /** The debt the corpus assigns for a wanted health, at a given price and threshold. */
  function DebtAt(collateral: u64, price: u64, bps: u16, target: u64): u64
    requires target > 0
  {
    QuotientShrinks(AdjustedCollateral(collateral, price, bps) * 1_000_000, target);
    var debt := AdjustedCollateral(collateral, price, bps) * 1_000_000 / target;
    if debt <= U64_MAX then debt else U64_MAX
  }

  const PRICE: u64 := 100_000_000
  const LIQUIDATION_THRESHOLD_BPS: u16 := 8_000

  function DebtForHealth(collateral: u64, target: u64): u64
    requires target > 0
  {
    DebtAt(collateral, PRICE, LIQUIDATION_THRESHOLD_BPS, target)
  }

  lemma SwapDivisors(n: nat, a: nat, b: nat)
    requires a > 0 && b > 0
    ensures n / a >= b <==> n / b >= a
  {
    QuotientIffProduct(n, a, b);
    QuotientIffProduct(n, b, a);
    assert a * b == b * a;
  }

  /** What a health factor says: it reaches `t` exactly when the adjusted collateral, at health scale, covers
      `t` times the debt. A debt-free position reaches every health there is. */
  lemma HealthMeans(collateral: u64, debt: u64, price: u64, bps: u16, t: u64)
    ensures HealthFactor(collateral, debt, price, bps) >= t <==>
      t * debt <= AdjustedCollateral(collateral, price, bps) * 1_000_000
  {
    var n := AdjustedCollateral(collateral, price, bps) * 1_000_000;
    if debt > 0 {
      QuotientIffProduct(n, debt, t);
      QuotientIffProduct(n, debt, U64_MAX + 1);
    }
    hide AdjustedCollateral;
  }

  /** Through every floor and both saturations: a position keeps at least the target health
      exactly as long as its debt does not exceed the debt computed for that target. */
  lemma HealthDebtGalois(collateral: u64, debt: u64, price: u64, bps: u16, target: u64)
    requires target > 0
    ensures HealthFactor(collateral, debt, price, bps) >= target <==> debt <= DebtAt(collateral, price, bps, target)
  {
    var n := AdjustedCollateral(collateral, price, bps) * HEALTH_SCALE;
    assert n / target >= 0;
    if debt > 0 {
      SwapDivisors(n, debt, target);
    }
  }

  /** The remainder a division may leave for the quotient to divide back to the divisor. */
  lemma DividesBack(n: nat, t: nat)
    requires t > 0 && n / t > 0
    ensures n / (n / t) == t <==> n % t < n / t
  {
    var q := n / t;
    assert n == q * t + n % t && (t + 1) * q == q * t + q;
    QuotientIffProduct(n, q, t);
    QuotientIffProduct(n, q, t + 1);
  }

  /** When a position holding the computed debt has the wanted health: `n` is the adjusted collateral at
      health scale. The remainder of the first division must stay below its quotient; where the debt
      saturates, the health of the largest debt must be the target. */
  predicate TargetIsMet(n: nat, target: u64)
    requires target > 0
  {
    if target == U64_MAX then true
    else if n / target <= U64_MAX then n % target < n / target
    else n < (target + 1) * U64_MAX
  }

  /** The corpus helper promises the target exactly. Floors only give at least the target, and exactly
      the target precisely when the inputs meet the condition above. */
  lemma TargetHealthIsExactWhen(collateral: u64, price: u64, bps: u16, target: u64)
    requires target > 0
    ensures var reached := HealthFactor(collateral, DebtAt(collateral, price, bps, target), price, bps);
      && reached >= target
      && (reached == target <==> TargetIsMet(AdjustedCollateral(collateral, price, bps) * HEALTH_SCALE, target))
  {
    var n := AdjustedCollateral(collateral, price, bps) * HEALTH_SCALE;
    HealthDebtGalois(collateral, DebtAt(collateral, price, bps, target), price, bps, target);
    ReachedHealth(collateral, price, bps, target);
    hide AdjustedCollateral, HealthFactor, DebtAt;
    if target < U64_MAX && n / target > U64_MAX {
      QuotientIffProduct(n, U64_MAX, target + 1);
    } else if target < U64_MAX && n / target > 0 {
      DividesBack(n, target);
    }
  }

  /** The health of the computed debt, as one quotient of another. */
  lemma ReachedHealth(collateral: u64, price: u64, bps: u16, target: u64)
    requires target > 0
    ensures var n := AdjustedCollateral(collateral, price, bps) * HEALTH_SCALE;
      var debt := Min(n / target, U64_MAX);
      n / target >= 0
      && HealthFactor(collateral, DebtAt(collateral, price, bps, target), price, bps)
           == if debt == 0 then U64_MAX else Min(n / debt, U64_MAX)
  {
    QuotientShrinks(AdjustedCollateral(collateral, price, bps) * HEALTH_SCALE, target);
    hide AdjustedCollateral;
  }

  /** Every target the corpus asks for, at its fractional collateral, is met exactly. */
  lemma CorpusTargetsAreMet(n: nat)
    requires 1 <= n <= 8
    ensures var collateral: u64, target: u64 := (80 + n) * 1_000_000_000 + 500_000_000, 1_020_000 + n * 20_000;
      HealthFactor(collateral, DebtForHealth(collateral, target), PRICE, LIQUIDATION_THRESHOLD_BPS) == target
  {
    var collateral: u64, target: u64 := (80 + n) * 1_000_000_000 + 500_000_000, 1_020_000 + n * 20_000;
    TargetHealthIsExactWhen(collateral, PRICE, LIQUIDATION_THRESHOLD_BPS, target);
    assert CollateralValue(collateral, PRICE) == (80 + n) * 100_000_000 + 50_000_000;
    assert AdjustedCollateral(collateral, PRICE, LIQUIDATION_THRESHOLD_BPS) == (80 + n) * 80_000_000 + 40_000_000;
    var scaled := ((80 + n) * 80_000_000 + 40_000_000) * 1_000_000;
    QuotientIffProduct(scaled, target, 2_000_000);
    QuotientIffProduct(scaled, target, 1_000_000_000_000);
    hide HealthFactor, AdjustedCollateral, CollateralValue;
  }

  /** An input that misses: one lamport at the corpus price supports no debt at health 1.0, so the
      position ends up infinitely healthy. The corpus itself never asks for it. */
  lemma TargetHealthCanBeMissed()
    ensures DebtForHealth(1, HEALTH_SCALE) == 0
    ensures HealthFactor(1, DebtForHealth(1, HEALTH_SCALE), PRICE, LIQUIDATION_THRESHOLD_BPS) == HEALTH_INFINITE
  {
  }

  /** Liquidation starts exactly where debt exceeds the risk-adjusted collateral. */
  lemma LiquidatableIffUnderwater(collateral: u64, debt: u64, price: u64, bps: u16)
    ensures IsLiquidatable(HealthFactor(collateral, debt, price, bps)) <==> AdjustedCollateral(collateral, price, bps) < debt
  {
    HealthDebtGalois(collateral, debt, price, bps, HEALTH_SCALE);
    var adjusted := AdjustedCollateral(collateral, price, bps);
    assert adjusted * 1_000_000 / HEALTH_SCALE == adjusted;
  }

  lemma AdjustedMonotone(c1: u64, c2: u64, p1: u64, p2: u64, b1: u16, b2: u16)
    requires c1 <= c2 && p1 <= p2 && b1 <= b2
    ensures AdjustedCollateral(c1, p1, b1) <= AdjustedCollateral(c2, p2, b2)
  {
    ProductBound(c1, p1, c2, p2);
    QuotientMonotone(c1 * p1, c2 * p2, 1_000_000_000);
    ProductBound(CollateralValue(c1, p1), b1, CollateralValue(c2, p2), b2);
    QuotientMonotone(CollateralValue(c1, p1) * b1, CollateralValue(c2, p2) * b2, 10_000);
  }

  /** More collateral, a better price or a laxer threshold never hurts; more debt never helps. */
  lemma HealthMonotone(c1: u64, c2: u64, d1: u64, d2: u64, p1: u64, p2: u64, b1: u16, b2: u16)
    requires c1 <= c2 && p1 <= p2 && b1 <= b2 && d1 >= d2
    ensures HealthFactor(c1, d1, p1, b1) <= HealthFactor(c2, d2, p2, b2)
  {
    AdjustedMonotone(c1, c2, p1, p2, b1, b2);
    var h := HealthFactor(c1, d1, p1, b1);
    if h > 0 {
      var n1, n2 := AdjustedCollateral(c1, p1, b1) * 1_000_000, AdjustedCollateral(c2, p2, b2) * 1_000_000;
      HealthDebtGalois(c1, d1, p1, b1, h);
      HealthDebtGalois(c2, d2, p2, b2, h);
      QuotientMonotone(n1, n2, h);
    }
  }

  // ---- the whole-SOL window ---------------------------------------------------------------

  function WholeSol(collateral: u64): u64 {
    collateral / LAMPORTS_PER_SOL * LAMPORTS_PER_SOL
  }

  /** The whole SOL in an amount: its largest multiple of a billion lamports. */
  lemma WholeSolIsFloor(collateral: u64)
    ensures WholeSol(collateral) % 1_000_000_000 == 0
    ensures WholeSol(collateral) <= collateral < WholeSol(collateral) + 1_000_000_000
  {
  }

  /** Valuing only whole SOL turns a healthy position liquidatable exactly for the debts between
      the two adjusted values, the upper one included. */
  lemma BoundaryWindow(collateral: u64, debt: u64, price: u64, bps: u16)
    ensures !IsLiquidatable(HealthFactor(collateral, debt, price, bps))
            && IsLiquidatable(HealthFactor(WholeSol(collateral), debt, price, bps))
      <==> AdjustedCollateral(WholeSol(collateral), price, bps) < debt <= AdjustedCollateral(collateral, price, bps)
  {
    LiquidatableIffUnderwater(collateral, debt, price, bps);
    LiquidatableIffUnderwater(WholeSol(collateral), debt, price, bps);
  }

  lemma FractionValue(collateral: u64, price: u64)
    ensures CollateralValue(collateral, price) - CollateralValue(WholeSol(collateral), price) <= price
  {
    var sol, rest := collateral / 1_000_000_000, collateral % 1_000_000_000;
    calc {
      collateral * price;
      (sol * 1_000_000_000 + rest) * price;
      sol * price * 1_000_000_000 + rest * price;
    }
    ProductBound(rest, price, 1_000_000_000, price);
    assert WholeSol(collateral) * price == sol * price * 1_000_000_000;
    assert collateral * price <= (sol * price + price) * 1_000_000_000;
  }

  /** The window is empty for whole-SOL collateral and never wider than one SOL's adjusted worth
      and a unit of rounding. */
  lemma BoundaryWindowWidth(collateral: u64, price: u64, bps: u16)
    ensures collateral % LAMPORTS_PER_SOL == 0 ==> WholeSol(collateral) == collateral
    ensures AdjustedCollateral(WholeSol(collateral), price, bps) <= AdjustedCollateral(collateral, price, bps)
    ensures AdjustedCollateral(collateral, price, bps) - AdjustedCollateral(WholeSol(collateral), price, bps)
              <= price * bps / 10_000 + 1
  {
    AdjustedMonotone(WholeSol(collateral), collateral, price, price, bps, bps);
    FractionValue(collateral, price);
    var whole, full := CollateralValue(WholeSol(collateral), price), CollateralValue(collateral, price);
    hide CollateralValue, WholeSol;
    WidthArithmetic(whole, full, price, bps);
  }

  lemma WidthArithmetic(whole: nat, full: nat, price: nat, bps: nat)
    requires full <= whole + price
    ensures full * bps / 10_000 <= whole * bps / 10_000 + price * bps / 10_000 + 1
  {
    ProductBound(full, bps, whole + price, bps);
    assert (whole + price) * bps == whole * bps + price * bps;
    SplitQuotient(full * bps, whole * bps, price * bps);
  }

  lemma SplitQuotient(x: nat, a: nat, b: nat)
    requires x <= a + b
    ensures x / 10_000 <= a / 10_000 + b / 10_000 + 1
  {
  }
}
