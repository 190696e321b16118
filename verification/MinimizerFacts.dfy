/** What the search's own terms amount to: local minimality in numbers, the price of a pass, and what a
    reported case tells its reader (engine/src/shrink.rs:44-57, 187-300). */
module MinimizerFacts {
  import opened Prelude
  import opened Layout
  import opened Types
  import opened Totals
  import opened Cluster
  import opened Shrink
  import opened Minimizer
  import I = Interpret
  import R = Reference
  import M = Money

  function Pow2(n: nat): (r: nat)
    ensures r > 0
  {
    if n == 0 then 1 else 2 * Pow2(n - 1)
  }

  lemma QuotientOfQuotient(n: nat, a: nat)
    requires a > 0
    ensures n / a >= 0 && n / a / 2 == n / (2 * a)
  {
    var q, r := n / a / 2, n / (2 * a);
    R.QuotientIffProduct(n, a, 0);
    R.QuotientIffProduct(n, 2 * a, 0);
    R.QuotientIffProduct(n, a, 2 * r);
    R.QuotientIffProduct(n, 2 * a, q);
    R.QuotientIffProduct(n, a, 2 * q);
    R.QuotientIffProduct(n, 2 * a, r);
    assert 2 * r * a == r * (2 * a) && 2 * q * a == q * (2 * a);
  }

  /** Halving a value `k` times divides it by the power of two, and never goes negative. */
  lemma {:induction false} HalvedIsQuotient(value: u64, k: nat)
    ensures Halved(value, k) == value / Pow2(k)
  {
    if k > 0 {
      HalvedIsQuotient(value, k - 1);
      QuotientOfQuotient(value, Pow2(k - 1));
    }
  }

  /** Nothing legal and new that reproduces the regression lies at these amounts, once they are rounded
      down to the granularities. */
  ghost predicate NoMoveTo(p: Problem, s: State, collateral: int, debt: int)
    requires Editable(p.base)
  {
    0 <= collateral <= U64_MAX && 0 <= debt <= U64_MAX && !Accepts(p, s, collateral, debt)
  }

  lemma RatioInNumbers(p: Problem, s: State, n: nat, d: nat)
    requires Editable(p.base) && 0 < n <= d
    ensures RatioStuck(p, s, n, d) <==> NoMoveTo(p, s, s.0 * n / d, s.1 * n / d)
  {
    ScaledShrinks(s.0, n, d);
    ScaledShrinks(s.1, n, d);
    hide Accepts;
  }

  /** Taking the 2^k-th part off the collateral is no move, unless that part is below its granularity. */
  ghost predicate CollateralRefused(p: Problem, s: State, k: nat)
    requires Editable(p.base)
  {
    s.0 / Pow2(k) >= p.config.collateralGranularity ==> NoMoveTo(p, s, s.0 - s.0 / Pow2(k), s.1)
  }

  ghost predicate DebtRefused(p: Problem, s: State, k: nat)
    requires Editable(p.base)
  {
    s.1 / Pow2(k) >= p.config.debtGranularity ==> NoMoveTo(p, s, s.0, s.1 - s.1 / Pow2(k))
  }

  lemma MinusMeans(value: u64, k: nat)
    ensures 0 <= Halved(value, k) == value / Pow2(k) <= value
    ensures Minus(value, Halved(value, k)) == value - value / Pow2(k)
  {
    HalvedIsQuotient(value, k);
    R.QuotientShrinks(value, Pow2(k));
    hide Halved;
  }

  lemma CollateralStep(p: Problem, s: State, k: nat)
    requires Editable(p.base)
    ensures CollateralStuckAt(p, s, k) <==> CollateralRefused(p, s, k)
  {
    MinusMeans(s.0, k);
    hide Accepts, Halved, Minus, Pow2, Editable;
  }

  lemma DebtStep(p: Problem, s: State, k: nat)
    requires Editable(p.base)
    ensures DebtStuckAt(p, s, k) <==> DebtRefused(p, s, k)
  {
    MinusMeans(s.1, k);
    hide Accepts, Halved, Minus, Pow2, Editable;
  }

  /** Local minimality in numbers: neither half, three quarters nor seven eighths of both amounts, nor either
      amount less a half, a quarter, an eighth of itself and so on down to its granularity, is a move. */
  lemma LocallyMinimalMeans(p: Problem, s: State)
    requires Editable(p.base)
    ensures LocallyMinimal(p, s) <==>
      && NoMoveTo(p, s, s.0 * 1 / 2, s.1 * 1 / 2)
      && NoMoveTo(p, s, s.0 * 3 / 4, s.1 * 3 / 4)
      && NoMoveTo(p, s, s.0 * 7 / 8, s.1 * 7 / 8)
      && (forall k: nat :: k > 0 ==> CollateralRefused(p, s, k))
      && (forall k: nat :: k > 0 ==> DebtRefused(p, s, k))
  {
    RatioInNumbers(p, s, 1, 2);
    RatioInNumbers(p, s, 3, 4);
    RatioInNumbers(p, s, 7, 8);
    hide RatioStuck, CollateralStuckAt, DebtStuckAt, NoMoveTo, CollateralRefused, DebtRefused, Editable;
    forall k: nat
      ensures CollateralStuckAt(p, s, k) <==> CollateralRefused(p, s, k)
      ensures DebtStuckAt(p, s, k) <==> DebtRefused(p, s, k)
    {
      CollateralStep(p, s, k);
      DebtStep(p, s, k);
    }
  }

  // ---- the price of a pass ---------------------------------------------------------------------------------

  lemma {:induction false} StepsBound(step: u64, granularity: u64, n: nat)
    requires granularity > 0 && step < granularity * Pow2(n)
    ensures Steps(step, granularity) <= n
  {
    if n > 0 && step >= granularity {
      assert granularity * Pow2(n) == 2 * (granularity * Pow2(n - 1));
      StepsBound(step / 2, granularity, n - 1);
    }
  }

  lemma PowersOfTwo()
    ensures Pow2(43) == 0x800_0000_0000 && Pow2(49) == 0x2_0000_0000_0000 && Pow2(63) == 0x8000_0000_0000_0000
  {
    assert Pow2(10) == 1024;
    assert Pow2(20) == 0x10_0000;
    assert Pow2(30) == 0x4000_0000;
    assert Pow2(43) == 0x800_0000_0000;
    assert Pow2(49) == 0x2_0000_0000_0000;
    assert Pow2(55) == 0x80_0000_0000_0000;
    assert Pow2(63) == 0x8000_0000_0000_0000;
  }

  /** A pass that moves nothing costs at most 129 probes, whatever the amounts and granularities. */
  lemma PassCostBound(p: Problem, s: State)
    requires p.config.collateralGranularity > 0 && p.config.debtGranularity > 0
    ensures PassCost(p, s) <= 129
  {
    PowersOfTwo();
    hide Pow2;
    R.ProductBound(1, Pow2(63), p.config.collateralGranularity, Pow2(63));
    R.ProductBound(1, Pow2(63), p.config.debtGranularity, Pow2(63));
    StepsBound(s.0 / 2, p.config.collateralGranularity, 63);
    StepsBound(s.1 / 2, p.config.debtGranularity, 63);
    hide Steps;
  }

  const DEFAULT_LIMITS: ShrinkConfig := ShrinkConfig(96, 1_000_000, 10_000)

  /** Under the default limits the budget pays for a whole pass over any position of amounts below 2^63, so
      that reporting nothing means no single move shrinks it. */
  lemma DefaultBudgetPays(p: Problem)
    requires Sound(p) && p.config == DEFAULT_LIMITS && NothingToShrink(p) && ReadPosition(p.base).Some?
    requires ReadPosition(p.base).value.collateralAmount < 0x8000_0000_0000_0000
    requires ReadPosition(p.base).value.debtAmount < 0x8000_0000_0000_0000
    ensures LocallyMinimal(p, (ReadPosition(p.base).value.collateralAmount, ReadPosition(p.base).value.debtAmount))
  {
    var original := ReadPosition(p.base).value;
    PowersOfTwo();
    hide Pow2, LocallyMinimal, ReadPosition, Editable;
    StepsBound(original.collateralAmount / 2, 1_000_000, 43);
    StepsBound(original.debtAmount / 2, 10_000, 49);
    hide Steps;
  }

  // ---- what a case tells its reader --------------------------------------------------------------------------

  /** The run leaves a position under that label whose cached health is below 1.0. */
  ghost predicate EndsLiquidatable(r: ExecutionResult) {
    && "position" in r.accounts && I.Decode(r.accounts["position"].data).DecodedPosition?
    && I.Decode(r.accounts["position"].data).position.healthFactor < 1_000_000
  }

  ghost predicate HealthRead(text: string, r: ExecutionResult) {
    if "position" in r.accounts && I.Decode(r.accounts["position"].data).DecodedPosition?
    then text == I.FormatHealth(I.Decode(r.accounts["position"].data).position.healthFactor)
    else text == "n/a"
  }

  ghost predicate OutcomeRead(text: string, r: ExecutionResult) {
    && (r.success ==> text == "success")
    && (!r.success && r.error.Some? ==> text == "reverted: " + r.error.value)
    && (!r.success && r.error == None ==> text == "reverted: unknown error")
  }

  /** Every observation in a reported case is what the two builds show on the variant it names: the first
      build under V1, the second under V2. */
  lemma CaseReads(p: Problem, c: MinimizedCase)
    requires Sound(p) && Minimized(p, c)
    ensures VariantOf(p.base, c.collateralLamports, c.debtMicroUsd).Some? && ReadPosition(p.base).Some?
    ensures var v := VariantOf(p.base, c.collateralLamports, c.debtMicroUsd).value;
      && p.v1(v).Ok? && p.v2(v).Ok?
      && HealthRead(c.v1Health, p.v1(v).value) && HealthRead(c.v2Health, p.v2(v).value)
      && (c.v1Liquidatable <==> EndsLiquidatable(p.v1(v).value)) && (c.v2Liquidatable <==> EndsLiquidatable(p.v2(v).value))
      && OutcomeRead(c.v1Outcome, p.v1(v).value) && OutcomeRead(c.v2Outcome, p.v2(v).value)
    ensures c.derivedFrom == p.base.id && c.debtValueUsd == c.debtMicroUsd
    ensures c.collateralValueUsd == c.collateralLamports * ReadPosition(p.base).value.collateralPrice / 1_000_000_000
    ensures c.collateralDisplay == I.FormatSol(c.collateralLamports) + " SOL" && c.debtDisplay == M.FormatDollars(c.debtMicroUsd)
  {
    R.DebtIsPegged(c.debtMicroUsd);
    var v := VariantOf(p.base, c.collateralLamports, c.debtMicroUsd).value;
    hide VariantOf, ReadPosition, LocallyMinimal, Reproduces, Granules, OnGrid, CarriesAmounts, Editable;
    RunReads(p.v1(v).value);
    RunReads(p.v2(v).value);
    hide HealthText, OutcomeOf, LiquidatableAfter, PositionAfter, HealthRead, OutcomeRead, EndsLiquidatable, R.DebtValue, I.FormatSol, I.FormatHealth;
  }

  lemma RunReads(r: ExecutionResult)
    ensures HealthRead(HealthText(PositionAfter(r)), r)
    ensures LiquidatableAfter(PositionAfter(r)) <==> EndsLiquidatable(r)
    ensures OutcomeRead(OutcomeOf(r), r)
  {
    hide I.Decode, I.FormatHealth;
  }
}
