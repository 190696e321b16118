/** The minimization search (engine/src/shrink.rs:107-300).

    The search is greedy and bounded by a probe budget. What it guarantees about the case it
    reports is stated here for every pair of builds, every budget and every granularity. */
module Minimizer {
  import opened Prelude
  import opened Layout
  import opened Types
  import opened Totals
  import opened Cluster
  import opened Shrink
  import D = Diff
  import I = Interpret
  import R = Reference
  import M = Money

  type State = (u64, u64)

  /** The search problem: a fixture, the class to preserve, the two builds and the limits. */
  datatype Problem = Problem(base: Fixture, target: ClusterKey, v1: Program, v2: Program, config: ShrinkConfig)

  ghost predicate Sound(p: Problem) {
    Editable(p.base) && p.config.collateralGranularity > 0 && p.config.debtGranularity > 0
  }

  // ---- which moves are accepted ---------------------------------------------------------------------------

  /** At some legal state a variant of the base cannot be executed or compared. */
  ghost predicate CanFail(p: Problem)
    requires Editable(p.base)
  {
    exists s: State :: LargeEnough(p, s) && Fails(p, s)
  }

  ghost predicate Fails(p: Problem, s: State)
    requires Editable(p.base)
  {
    var candidate := VariantOf(p.base, s.0, s.1);
    candidate.Some? && ObservedClass(candidate.value, p.v1, p.v2).Err?
  }

  function Quantized(p: Problem, collateral: u64, debt: u64): State {
    (Quantize(collateral, p.config.collateralGranularity), Quantize(debt, p.config.debtGranularity))
  }

  /** At least one step of each granularity. */
  predicate LargeEnough(p: Problem, s: State) {
    s.0 >= p.config.collateralGranularity && s.1 >= p.config.debtGranularity
  }

  /** The variant at a state exists and shows the target regression class. */
  ghost predicate Reproduces(p: Problem, s: State)
    requires Editable(p.base)
  {
    var candidate := VariantOf(p.base, s.0, s.1);
    candidate.Some? && ObservedClass(candidate.value, p.v1, p.v2) == Ok(Some(p.target))
  }

  /** A move is accepted when its quantized end is legal, new, and reproduces. */
  ghost predicate Accepts(p: Problem, s: State, collateral: u64, debt: u64)
    requires Editable(p.base)
  {
    var next := Quantized(p, collateral, debt);
    LargeEnough(p, next) && next != s && Reproduces(p, next)
  }

  lemma AcceptsMeans(p: Problem, s: State, collateral: u64, debt: u64)
    requires Editable(p.base)
    ensures var c, d := Quantize(collateral, p.config.collateralGranularity), Quantize(debt, p.config.debtGranularity);
      Accepts(p, s, collateral, debt) <==>
        && c >= p.config.collateralGranularity && d >= p.config.debtGranularity && (c, d) != s
        && VariantOf(p.base, c, d).Some?
        && ObservedClass(VariantOf(p.base, c, d).value, p.v1, p.v2) == Ok(Some(p.target))
    ensures Quantized(p, collateral, debt)
         == (Quantize(collateral, p.config.collateralGranularity), Quantize(debt, p.config.debtGranularity))
  {
  }

  function Scaled(value: u64, numerator: nat, denominator: nat): u64
    requires 0 < numerator <= denominator
  {
    ScaledShrinks(value, numerator, denominator);
    value * numerator / denominator
  }

  /** Scaling down never leaves 64 bits, so the engine's narrowing cast loses nothing. */
  lemma ScaledShrinks(value: nat, numerator: nat, denominator: nat)
    requires 0 < numerator <= denominator
    ensures 0 <= value * numerator / denominator <= value
  {
  }

  function Minus(value: u64, step: nat): u64 {
    if step <= value then value - step else 0
  }

  function Halved(value: u64, times: nat): u64 {
    if times == 0 then value else Halved(value, times - 1) / 2
  }

  lemma {:induction false} HalvedShrinks(value: u64, j: nat, k: nat)
    requires j <= k
    ensures Halved(value, k) <= Halved(value, j)
  {
    if j < k { HalvedShrinks(value, j, k - 1); }
  }

  /** How many halvings of a step stay at least one granule: the probes of a descent that moves nothing. */
  function Steps(step: u64, granularity: u64): nat
    requires granularity > 0
  {
    if step < granularity then 0 else 1 + Steps(step / 2, granularity)
  }

  // ---- where the search may stop ---------------------------------------------------------------------------

  /** No simultaneous scaling by the ratio is accepted. */
  ghost predicate RatioStuck(p: Problem, s: State, numerator: nat, denominator: nat)
    requires Editable(p.base) && 0 < numerator <= denominator
  {
    !Accepts(p, s, Scaled(s.0, numerator, denominator), Scaled(s.1, numerator, denominator))
  }

  /** The k-th halving step of the collateral, if it is still a step, is not accepted. */
  ghost predicate CollateralStuckAt(p: Problem, s: State, k: nat)
    requires Editable(p.base)
  {
    Halved(s.0, k) >= p.config.collateralGranularity ==> !Accepts(p, s, Minus(s.0, Halved(s.0, k)), s.1)
  }

  ghost predicate DebtStuckAt(p: Problem, s: State, k: nat)
    requires Editable(p.base)
  {
    Halved(s.1, k) >= p.config.debtGranularity ==> !Accepts(p, s, s.0, Minus(s.1, Halved(s.1, k)))
  }

  ghost predicate CollateralStuck(p: Problem, s: State)
    requires Editable(p.base)
  {
    forall k: nat :: k > 0 ==> CollateralStuckAt(p, s, k)
  }

  ghost predicate DebtStuck(p: Problem, s: State)
    requires Editable(p.base)
  {
    forall k: nat :: k > 0 ==> DebtStuckAt(p, s, k)
  }

  ghost predicate RatiosStuck(p: Problem, s: State)
    requires Editable(p.base)
  {
    RatioStuck(p, s, 1, 2) && RatioStuck(p, s, 3, 4) && RatioStuck(p, s, 7, 8)
  }

  /** The first `k` steps are stuck. */
  ghost predicate CollateralStuckBelow(p: Problem, s: State, k: nat)
    requires Editable(p.base)
  {
    forall j: nat :: 0 < j < k ==> CollateralStuckAt(p, s, j)
  }

  lemma CollateralStuckFurther(p: Problem, s: State, k: nat)
    requires Editable(p.base) && CollateralStuckBelow(p, s, k) && !Accepts(p, s, Minus(s.0, Halved(s.0, k)), s.1)
    ensures CollateralStuckBelow(p, s, k + 1)
  {
  }

  lemma HalvingsEnd(p: Problem, s: State, k: nat)
    requires Editable(p.base) && k > 0 && Halved(s.0, k) < p.config.collateralGranularity
    requires CollateralStuckBelow(p, s, k)
    ensures CollateralStuck(p, s)
  {
    forall j: nat | j > 0 ensures CollateralStuckAt(p, s, j) {
      if j >= k { HalvedShrinks(s.0, k, j); }
      hide Accepts, Halved;
    }
  }

  /** The first `k` steps are stuck. */
  ghost predicate DebtStuckBelow(p: Problem, s: State, k: nat)
    requires Editable(p.base)
  {
    forall j: nat :: 0 < j < k ==> DebtStuckAt(p, s, j)
  }

  lemma DebtStuckFurther(p: Problem, s: State, k: nat)
    requires Editable(p.base) && DebtStuckBelow(p, s, k) && !Accepts(p, s, s.0, Minus(s.1, Halved(s.1, k)))
    ensures DebtStuckBelow(p, s, k + 1)
  {
  }

  lemma DebtHalvingsEnd(p: Problem, s: State, k: nat)
    requires Editable(p.base) && k > 0 && Halved(s.1, k) < p.config.debtGranularity
    requires DebtStuckBelow(p, s, k)
    ensures DebtStuck(p, s)
  {
    forall j: nat | j > 0 ensures DebtStuckAt(p, s, j) {
      if j >= k { HalvedShrinks(s.1, k, j); }
      hide Accepts, Halved;
    }
  }

  /** None of the search's moves leads anywhere from here. */
  ghost predicate LocallyMinimal(p: Problem, s: State)
    requires Editable(p.base)
  {
    RatiosStuck(p, s) && CollateralStuck(p, s) && DebtStuck(p, s)
  }

  /** The probes of a pass that moves nothing: one per ratio, and one per halving step. */
  function PassCost(p: Problem, s: State): nat
    requires p.config.collateralGranularity > 0 && p.config.debtGranularity > 0
  {
    3 + Steps(s.0 / 2, p.config.collateralGranularity) + Steps(s.1 / 2, p.config.debtGranularity)
  }

  // ---- where the search can be ---------------------------------------------------------------------------------

  /** Whole granules left: the potential every accepted move but the first lowers. */
  function Granules(p: Problem, s: State): nat
    requires Sound(p)
  {
    WholeSteps(s.0, p.config.collateralGranularity) + WholeSteps(s.1, p.config.debtGranularity)
  }

  function WholeSteps(value: u64, step: u64): nat
    requires step > 0
  {
    R.QuotientShrinks(value, step);
    value / step
  }

  ghost predicate OnGrid(p: Problem, s: State)
    requires Sound(p)
  {
    s.0 % p.config.collateralGranularity == 0 && s.1 % p.config.debtGranularity == 0 && LargeEnough(p, s)
  }

  /** A state the search accepted: smaller than the start, on the grid, and a witness. */
  ghost predicate Witness(p: Problem, start: State, s: State)
    requires Sound(p)
  {
    s.0 <= start.0 && s.1 <= start.1 && s != start && OnGrid(p, s) && Reproduces(p, s)
  }

  /** The bookkeeping after any number of probes. */
  ghost predicate Consistent(p: Problem, start: State, s: State, probes: nat, reductions: nat)
    requires Sound(p)
  {
    && reductions <= probes <= p.config.maxProbes
    && (reductions == 0 ==> s == start)
    && (reductions > 0 ==> Witness(p, start, s) && reductions + Granules(p, s) <= Granules(p, start) + 1)
  }

  /** Two states of one run, the second reached from the first. */
  predicate Below(s: State, t: State) {
    s == t || (s.0 <= t.0 && s.1 <= t.1 && s.0 as int + s.1 < t.0 as int + t.1)
  }

  lemma BelowTransitive(a: State, b: State, c: State)
    requires Below(a, b) && Below(b, c)
    ensures Below(a, c)
    ensures a == c ==> a == b == c
  {
  }

  lemma FloorOrder(x: nat, y: nat, g: nat)
    requires g > 0 && x <= y
    ensures x / g <= y / g
    ensures x % g == 0 && y % g == 0 && x < y ==> x / g < y / g
  {
    R.QuotientMonotone(x, y, g);
    assert x == x / g * g + x % g && y == y / g * g + y % g;
  }

  lemma QuantizedSmaller(p: Problem, s: State, collateral: u64, debt: u64)
    requires Sound(p) && collateral <= s.0 && debt <= s.1
    ensures var next := Quantized(p, collateral, debt);
      && next.0 % p.config.collateralGranularity == 0 && next.1 % p.config.debtGranularity == 0
      && Below(next, s)
      && Granules(p, next) <= Granules(p, s)
      && (OnGrid(p, s) && next != s ==> Granules(p, next) < Granules(p, s))
  {
    var next := Quantized(p, collateral, debt);
    QuantizeIsFloor(collateral, p.config.collateralGranularity);
    QuantizeIsFloor(debt, p.config.debtGranularity);
    FloorOrder(next.0, s.0, p.config.collateralGranularity);
    FloorOrder(next.1, s.1, p.config.debtGranularity);
    hide Quantize;
  }

  lemma AcceptedWitness(p: Problem, start: State, s: State, probes: nat, reductions: nat, collateral: u64, debt: u64)
    requires Sound(p) && Consistent(p, start, s, probes, reductions)
    requires collateral <= s.0 && debt <= s.1 && Accepts(p, s, collateral, debt)
    ensures var next := Quantized(p, collateral, debt);
      Witness(p, start, next) && Below(next, s) && next != s
  {
    QuantizedSmaller(p, s, collateral, debt);
    hide Quantized, Reproduces, Granules, Editable;
  }

  lemma AcceptedCount(p: Problem, start: State, s: State, probes: nat, reductions: nat, collateral: u64, debt: u64)
    requires Sound(p) && Consistent(p, start, s, probes, reductions)
    requires collateral <= s.0 && debt <= s.1 && Accepts(p, s, collateral, debt)
    ensures reductions + 1 + Granules(p, Quantized(p, collateral, debt)) <= Granules(p, start) + 1
  {
    QuantizedSmaller(p, s, collateral, debt);
    hide Quantized, Reproduces, Granules, Editable, OnGrid;
  }

  lemma AcceptedStep(p: Problem, start: State, s: State, probes: nat, reductions: nat, collateral: u64, debt: u64)
    requires Sound(p) && Consistent(p, start, s, probes, reductions) && probes < p.config.maxProbes
    requires collateral <= s.0 && debt <= s.1 && Accepts(p, s, collateral, debt)
    ensures var next := Quantized(p, collateral, debt);
      Consistent(p, start, next, probes + 1, reductions + 1) && Below(next, s) && next != s
  {
    AcceptedWitness(p, start, s, probes, reductions, collateral, debt);
    AcceptedCount(p, start, s, probes, reductions, collateral, debt);
    hide Quantized, Witness, Granules, Editable, Accepts;
  }

  lemma RejectedStep(p: Problem, start: State, s: State, probes: nat, reductions: nat)
    requires Sound(p) && Consistent(p, start, s, probes, reductions) && probes < p.config.maxProbes
    ensures Consistent(p, start, s, probes + 1, reductions)
  {
  }

  /** One probe keeps the bookkeeping, wherever it leads. */
  lemma ProbeKeeps(p: Problem, start: State, s: State, probes: nat, reductions: nat, collateral: u64, debt: u64)
    requires Sound(p) && Consistent(p, start, s, probes, reductions) && probes < p.config.maxProbes
    requires collateral <= s.0 && debt <= s.1
    ensures Consistent(p, start, s, probes + 1, reductions) && Below(s, s)
    ensures Accepts(p, s, collateral, debt) ==>
      var next := Quantized(p, collateral, debt);
      Consistent(p, start, next, probes + 1, reductions + 1) && Below(next, s) && next != s
  {
    RejectedStep(p, start, s, probes, reductions);
    hide Accepts, Consistent, Quantized;
    if Accepts(p, s, collateral, debt) { AcceptedStep(p, start, s, probes, reductions, collateral, debt); }
  }

  lemma FailureMeans(p: Problem, s: State, candidate: Fixture)
    requires Editable(p.base) && LargeEnough(p, s) && VariantOf(p.base, s.0, s.1) == Some(candidate)
    ensures ObservedClass(candidate, p.v1, p.v2).Err? ==> CanFail(p)
  {
    hide VariantOf, ObservedClass, Editable;
    assert ObservedClass(candidate, p.v1, p.v2).Err? ==> Fails(p, s);
  }

  class Search {
    const problem: Problem
    ghost const start: State
    var probes: nat
    var reductions: nat

    constructor (problem: Problem, ghost start: State)
      requires Sound(problem)
      ensures this.problem == problem && this.start == start && probes == 0 && reductions == 0
      ensures Valid(start)
    {
      this.problem := problem;
      this.start := start;
      probes := 0;
      reductions := 0;
    }

    ghost predicate Valid(s: State)
      reads this
    {
      Sound(problem) && Consistent(problem, start, s, probes, reductions)
    }

    predicate BudgetLeft()
      reads this
    {
      probes < problem.config.maxProbes
    }

    /** Execute a candidate on both builds and compare its class with the target. */
    method Reproduced(candidate: Fixture) returns (r: Result<bool, string>)
      modifies this`probes
      ensures probes == old(probes) + 1
      ensures r == match ObservedClass(candidate, problem.v1, problem.v2)
                   case Err(e) => Err(e)
                   case Ok(key) => Ok(key == Some(problem.target))
    {
      probes := probes + 1;
      var r1 := problem.v1(candidate);
      if r1.Err? {
        return Err(r1.error);
      }
      var r2 := problem.v2(candidate);
      if r2.Err? {
        return Err(r2.error);
      }
      hide Signature, Evaluate, D.DiffOf, D.Completes;
      var compared := D.Compare(candidate, r1.value, r2.value, D.FixtureLending);
      if compared == None {
        return Err("attempt to subtract with overflow");
      }
      var diff := compared.value;
      var economics := Evaluate(candidate, diff);
      if economics == None {
        return Ok(false);
      }
      r := Ok(Signature(candidate, diff, economics.value) == problem.target);
    }

    /** Try one candidate; move there if it preserves the regression. */
    method TryCandidate(s: State, collateral: u64, debt: u64) returns (r: Result<bool, string>, next: State)
      requires Valid(s) && collateral <= s.0 && debt <= s.1
      modifies this
      ensures Valid(next) && Below(next, s) && old(probes) <= probes <= old(probes) + 1
      ensures r.Ok? ==> r.value == (old(BudgetLeft()) && Accepts(problem, s, collateral, debt))
      ensures next == (if r == Ok(true) then Quantized(problem, collateral, debt) else s)
      ensures reductions == old(reductions) + (if r == Ok(true) then 1 else 0)
      ensures r == Ok(true) ==> next != s
      ensures r.Err? ==> CanFail(problem)
    {
      next := s;
      AcceptsMeans(problem, s, collateral, debt);
      hide Accepts, Quantized, Consistent, VariantOf, Quantize, ObservedClass, Editable, CanFail;
      if !BudgetLeft() {
        return Ok(false), s;
      }
      var c := Quantize(collateral, problem.config.collateralGranularity);
      var d := Quantize(debt, problem.config.debtGranularity);
      if c < problem.config.collateralGranularity || d < problem.config.debtGranularity || (c, d) == s {
        return Ok(false), s;
      }
      var candidate := Variant(problem.base, c, d);
      if candidate == None {
        return Ok(false), s;
      }
      r, next := Adopt(s, collateral, debt, candidate.value);
    }

    /** Probe a legal candidate, and move to it if it reproduces. */
    method Adopt(s: State, collateral: u64, debt: u64, candidate: Fixture) returns (r: Result<bool, string>, next: State)
      requires Valid(s) && BudgetLeft() && collateral <= s.0 && debt <= s.1
      requires var q := Quantized(problem, collateral, debt);
        LargeEnough(problem, q) && q != s && VariantOf(problem.base, q.0, q.1) == Some(candidate)
      modifies this
      ensures Valid(next) && Below(next, s) && probes == old(probes) + 1
      ensures r.Ok? ==> r.value == Accepts(problem, s, collateral, debt)
      ensures next == (if r == Ok(true) then Quantized(problem, collateral, debt) else s)
      ensures reductions == old(reductions) + (if r == Ok(true) then 1 else 0)
      ensures r == Ok(true) ==> next != s
      ensures r.Err? ==> CanFail(problem)
    {
      next := s;
      AcceptsMeans(problem, s, collateral, debt);
      FailureMeans(problem, Quantized(problem, collateral, debt), candidate);
      hide *;
      ProbeKeeps(problem, start, s, probes, reductions, collateral, debt);
      r := Reproduced(candidate);
      if r.Ok? && r.value {
        next := Quantized(problem, collateral, debt);
        reductions := reductions + 1;
      }
    }

    /** Scale both amounts by a ratio for as long as that is accepted. */
    method RatioPhase(s: State, numerator: nat, denominator: nat) returns (r: Option<string>, next: State)
      requires Valid(s) && 0 < numerator <= denominator
      modifies this
      ensures Valid(next) && Below(next, s) && old(probes) <= probes
      ensures r == None && next == s && BudgetLeft() ==> RatioStuck(problem, s, numerator, denominator)
      ensures next == s ==> probes <= old(probes) + 1
      ensures r.Some? ==> CanFail(problem)
    {
      next := s;
      while true
        invariant Valid(next) && Below(next, s) && old(probes) <= probes
        invariant next == s ==> probes == old(probes)
        decreases next.0 as int + next.1
      {
        var collateral, debt := Scaled(next.0, numerator, denominator), Scaled(next.1, numerator, denominator);
        ScaledShrinks(next.0, numerator, denominator);
        ScaledShrinks(next.1, numerator, denominator);
        hide Scaled, Accepts, Consistent;
        var tried, after := TryCandidate(next, collateral, debt);
        BelowTransitive(after, next, s);
        next := after;
        if tried.Err? {
          return Some(tried.error), next;
        }
        if !tried.value {
          return None, next;
        }
      }
    }

    /** Lower the collateral by a step that halves whenever it is rejected. */
    method CollateralDescent(s: State) returns (r: Option<string>, next: State)
      requires Valid(s)
      modifies this
      ensures Valid(next) && Below(next, s) && old(probes) <= probes
      ensures r == None && next == s && BudgetLeft() ==> CollateralStuck(problem, s)
      ensures next == s ==> probes <= old(probes) + Steps(s.0 / 2, problem.config.collateralGranularity)
      ensures r.Some? ==> CanFail(problem)
    {
      next := s;
      var step: u64 := next.0 / 2;
      ghost var k := 1;
      while step >= problem.config.collateralGranularity && BudgetLeft()
        invariant Valid(next) && Below(next, s) && old(probes) <= probes && k > 0
        invariant next == s ==> step == Halved(s.0, k)
        invariant next == s ==>
          probes + Steps(step, problem.config.collateralGranularity) <= old(probes) + Steps(s.0 / 2, problem.config.collateralGranularity)
        invariant next == s && BudgetLeft() ==> CollateralStuckBelow(problem, s, k)
        decreases next.0 as int + next.1, step
      {
        hide Accepts, Consistent, CollateralStuckBelow, Editable, Minus;
        var tried, after := TryCandidate(next, Minus(next.0, step), next.1);
        BelowTransitive(after, next, s);
        next := after;
        if tried.Err? {
          return Some(tried.error), next;
        }
        if !tried.value {
          if next == s && BudgetLeft() { CollateralStuckFurther(problem, s, k); }
          step := step / 2;
          k := k + 1;
        }
      }
      if next == s && BudgetLeft() {
        HalvingsEnd(problem, s, k);
      }
      r := None;
    }

    /** The same for the debt. */
    method DebtDescent(s: State) returns (r: Option<string>, next: State)
      requires Valid(s)
      modifies this
      ensures Valid(next) && Below(next, s) && old(probes) <= probes
      ensures r == None && next == s && BudgetLeft() ==> DebtStuck(problem, s)
      ensures next == s ==> probes <= old(probes) + Steps(s.1 / 2, problem.config.debtGranularity)
      ensures r.Some? ==> CanFail(problem)
    {
      next := s;
      var step: u64 := next.1 / 2;
      ghost var k := 1;
      while step >= problem.config.debtGranularity && BudgetLeft()
        invariant Valid(next) && Below(next, s) && old(probes) <= probes && k > 0
        invariant next == s ==> step == Halved(s.1, k)
        invariant next == s ==>
          probes + Steps(step, problem.config.debtGranularity) <= old(probes) + Steps(s.1 / 2, problem.config.debtGranularity)
        invariant next == s && BudgetLeft() ==> DebtStuckBelow(problem, s, k)
        decreases next.0 as int + next.1, step
      {
        hide Accepts, Consistent, DebtStuckBelow, Editable, Minus;
        var tried, after := TryCandidate(next, next.0, Minus(next.1, step));
        BelowTransitive(after, next, s);
        next := after;
        if tried.Err? {
          return Some(tried.error), next;
        }
        if !tried.value {
          if next == s && BudgetLeft() { DebtStuckFurther(problem, s, k); }
          step := step / 2;
          k := k + 1;
        }
      }
      if next == s && BudgetLeft() {
        DebtHalvingsEnd(problem, s, k);
      }
      r := None;
    }

    /** All three ratios, then both descents. */
    method Pass(s: State) returns (r: Option<string>, next: State)
      requires Valid(s)
      modifies this
      ensures Valid(next) && Below(next, s) && old(probes) <= probes
      ensures r == None && next == s && BudgetLeft() ==> LocallyMinimal(problem, s)
      ensures next == s ==> probes <= old(probes) + PassCost(problem, s)
      ensures r.Some? ==> CanFail(problem)
    {
      hide RatioStuck, CollateralStuck, DebtStuck, Consistent;
      var a, b, c, d: State;
      r, a := RatioPhase(s, 1, 2);
      if r.Some? { return r, a; }
      r, b := RatioPhase(a, 3, 4);
      BelowTransitive(b, a, s);
      if r.Some? { return r, b; }
      r, c := RatioPhase(b, 7, 8);
      BelowTransitive(c, b, s);
      if r.Some? { return r, c; }
      r, d := CollateralDescent(c);
      BelowTransitive(d, c, s);
      if r.Some? { return r, d; }
      r, next := DebtDescent(d);
      BelowTransitive(next, d, s);
    }

    /** Passes until one accepts nothing, or the budget is gone. */
    method Run(from: State) returns (r: Option<string>, s: State)
      requires Valid(from) && from == start && probes == 0
      modifies this
      ensures Valid(s)
      ensures r == None && BudgetLeft() ==> LocallyMinimal(problem, s)
      ensures s == from ==> probes <= PassCost(problem, from)
      ensures r.Some? ==> CanFail(problem)
    {
      s := from;
      r := None;
      while true
        invariant Valid(s) && Below(s, from)
        invariant s == from ==> probes == 0
        decreases s.0 as int + s.1
      {
        hide LocallyMinimal, Consistent, PassCost;
        var before := s;
        r, s := Pass(before);
        BelowTransitive(s, before, from);
        if r.Some? || s == before || !BudgetLeft() {
          return;
        }
      }
    }
  }

  // ---- the entry point ----------------------------------------------------------------------------------------

  function HealthText(post: Option<I.PositionEconomics>): string {
    if post.Some? then I.FormatHealth(post.value.healthFactor) else "n/a"
  }

  function OutcomeOf(result: ExecutionResult): string {
    if result.success then "success"
    else "reverted: " + (if result.error.Some? then result.error.value else "unknown error")
  }

  predicate LiquidatableAfter(post: Option<I.PositionEconomics>) {
    post.Some? && R.IsLiquidatable(post.value.healthFactor)
  }

  /** The report of a winning state, from one more execution of its variant. */
  function CaseFor(base: Fixture, price: u64, s: State, r1: ExecutionResult, r2: ExecutionResult, probes: nat, reductions: nat): MinimizedCase {
    var post1, post2 := PositionAfter(r1), PositionAfter(r2);
    MinimizedCase(
      base.id, s.0, I.FormatSol(s.0) + " SOL", s.1, M.FormatDollars(s.1),
      R.CollateralValue(s.0, price), R.DebtValue(s.1), HealthText(post1), HealthText(post2),
      LiquidatableAfter(post1), LiquidatableAfter(post2), OutcomeOf(r1), OutcomeOf(r2), probes, reductions)
  }

  /** The variant at a state carries a position holding just those amounts. */
  ghost predicate CarriesAmounts(p: Problem, s: State)
    requires Editable(p.base)
  {
    var v := VariantOf(p.base, s.0, s.1);
    && v.Some? && ReadPosition(v.value).Some?
    && ReadPosition(v.value).value.collateralAmount == s.0 && ReadPosition(v.value).value.debtAmount == s.1
  }

  lemma VariantCarries(p: Problem, s: State)
    requires Editable(p.base) && VariantOf(p.base, s.0, s.1).Some?
    ensures CarriesAmounts(p, s)
  {
    VariantIsSelfConsistent(p.base, s.0, s.1);
    hide VariantOf, ReadPosition, Adjusted;
  }

  /** What a reported case guarantees. */
  ghost predicate Minimized(p: Problem, c: MinimizedCase)
    requires Sound(p)
  {
    var s := (c.collateralLamports, c.debtMicroUsd);
    && ReadPosition(p.base).Some?
    && (var original := ReadPosition(p.base).value;
        var start := (original.collateralAmount, original.debtAmount);
        && Witness(p, start, s)
        && CarriesAmounts(p, s)
        && 0 < c.reductions <= c.probes <= p.config.maxProbes
        && c.reductions + Granules(p, s) <= Granules(p, start) + 1
        && (c.probes < p.config.maxProbes ==> LocallyMinimal(p, s)))
    && (var variant := VariantOf(p.base, s.0, s.1).value;
        && p.v1(variant).Ok? && p.v2(variant).Ok?
        && c == CaseFor(p.base, ReadPosition(p.base).value.collateralPrice, s, p.v1(variant).value, p.v2(variant).value, c.probes, c.reductions))
  }

  /** What reporting nothing guarantees: there is no position, or the start cannot be shrunk by any
      single move, unless the budget cannot pay for trying them all. */
  ghost predicate NothingToShrink(p: Problem)
    requires Sound(p)
  {
    match ReadPosition(p.base)
    case None => true
    case Some(original) =>
      var start := (original.collateralAmount, original.debtAmount);
      PassCost(p, start) < p.config.maxProbes ==> LocallyMinimal(p, start)
  }

  /** Shrink a fixture while preserving its regression class. */
  method Minimize(p: Problem) returns (r: Result<Option<MinimizedCase>, string>)
    requires Editable(p.base)
    ensures r.Ok? ==> Sound(p)
    ensures r.Err? ==> !Sound(p) || CanFail(p)
    ensures r.Ok? && r.value.Some? ==> Minimized(p, r.value.value)
    ensures r == Ok(None) ==> NothingToShrink(p)
  {
    if p.config.collateralGranularity == 0 || p.config.debtGranularity == 0 {
      return Err("minimization granularity must be positive");
    }
    var original := ReadPosition(p.base);
    if original == None {
      return Ok(None);
    }
    var start := (original.value.collateralAmount, original.value.debtAmount);
    hide LocallyMinimal, ReadPosition, PassCost;
    var search := new Search(p, start);
    var failure, s := search.Run(start);
    if failure.Some? {
      return Err(failure.value);
    }
    if search.reductions == 0 {
      return Ok(None);
    }
    hide Consistent;
    var winner := Conclude(p, original.value, s, search.probes, search.reductions);
    r := Ok(Some(winner));
  }

  /** Execute the winner once more and report what that run shows. */
  method Conclude(p: Problem, original: Position, s: State, probes: nat, reductions: nat) returns (c: MinimizedCase)
    requires Sound(p) && ReadPosition(p.base) == Some(original)
    requires Consistent(p, (original.collateralAmount, original.debtAmount), s, probes, reductions) && reductions > 0
    requires probes < p.config.maxProbes ==> LocallyMinimal(p, s)
    ensures Minimized(p, c)
  {
    hide VariantOf, ObservedClass, Granules, OnGrid, CaseFor, Editable, LocallyMinimal, ReadPosition;
    VariantCarries(p, s);
    hide CarriesAmounts;
    var minimized := Variant(p.base, s.0, s.1);
    ObservedRuns(minimized.value, p);
    var r1 := p.v1(minimized.value);
    var r2 := p.v2(minimized.value);
    c := CaseFor(p.base, original.collateralPrice, s, r1.value, r2.value, probes, reductions);
    CaseKeeps(p.base, original.collateralPrice, s, r1.value, r2.value, probes, reductions);
  }

  lemma CaseKeeps(base: Fixture, price: u64, s: State, r1: ExecutionResult, r2: ExecutionResult, probes: nat, reductions: nat)
    ensures var c := CaseFor(base, price, s, r1, r2, probes, reductions);
      (c.collateralLamports, c.debtMicroUsd) == s && c.probes == probes && c.reductions == reductions
  {
  }

  lemma ObservedRuns(variant: Fixture, p: Problem)
    requires ObservedClass(variant, p.v1, p.v2).Ok?
    ensures p.v1(variant).Ok? && p.v2(variant).Ok?
  {
  }

  /** The number of reductions is bounded by the granules the search started with, budget or not. */
  lemma ReductionsBounded(p: Problem, c: MinimizedCase)
    requires Sound(p) && Minimized(p, c)
    ensures ReadPosition(p.base).Some?
    ensures var original := ReadPosition(p.base).value;
      var start := (original.collateralAmount, original.debtAmount);
      c.reductions < start.0 as int / p.config.collateralGranularity + start.1 as int / p.config.debtGranularity
  {
    R.QuotientIffProduct(c.collateralLamports, p.config.collateralGranularity, 1);
    R.QuotientIffProduct(c.debtMicroUsd, p.config.debtGranularity, 1);
    hide Reproduces, LocallyMinimal, CaseFor, ReadPosition, Editable, VariantOf;
  }
}
