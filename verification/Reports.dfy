/** The report of a run: outcome counters, and lookups by id (engine/src/report.rs). */
module Reports {
  import opened Prelude
  import opened Types
  import opened Diff
  import opened DiffProperties
  import opened Totals
  import opened Cluster
  import opened ClusterIds
  import opened ClusterFacts
  import M = Money
  import T = ClusterTotals

  function CategoryName(c: Category): string {
    match c
    case Healthy => "healthy"
    case Moderate => "moderate"
    case Small => "small"
    case Large => "large"
    case Fractional => "fractional"
    case NearLiquidation => "near-liquidation"
    case Boundary => "boundary"
    case WithdrawBoundary => "withdraw-boundary"
    case LiquidationBoundary => "liquidation-boundary"
  }

  const ALL_CATEGORIES: seq<Category> :=
    [Healthy, Moderate, Small, Large, Fractional, NearLiquidation, Boundary, WithdrawBoundary, LiquidationBoundary]

  datatype CategoryCounts = CategoryCounts(tested: nat, identical: nat, computeOnly: nat, changed: nat, critical: nat)

  datatype Counts = Counts(
    identical: nat, computeOnly: nat, outcomeIdentical: nat, changed: nat, critical: nat, high: nat, warning: nat,
    withDelta: nat, minPct: i32, maxPct: i32, aboveThreshold: nat, byCategory: map<string, CategoryCounts>)

  // ---- what the counters mean ------------------------------------------------------------------------

  function Count(ds: seq<StateDiff>, p: StateDiff -> bool): nat {
    if ds == [] then 0 else Count(ds[..|ds| - 1], p) + (if p(ds[|ds| - 1]) then 1 else 0)
  }

  predicate IsIdentical(d: StateDiff) { d.Classification() == Identical }

  predicate IsComputeOnlyDiff(d: StateDiff) { d.Classification() == ComputeOnly }

  predicate IsChanged(d: StateDiff) { d.Classification() == Changed }

  predicate IsOutcomeIdentical(d: StateDiff) { d.OutcomeDifferences() == [] }

  predicate IsCriticalDiff(d: StateDiff) { d.IsCritical() }

  predicate IsHigh(d: StateDiff) { d.OutcomeSeverity() == Some(High) }

  /** Changed, but neither critical nor high. */
  predicate IsLesser(d: StateDiff) {
    IsChanged(d) && d.OutcomeSeverity() != Some(Critical) && d.OutcomeSeverity() != Some(High)
  }

  predicate HasDelta(d: StateDiff) { d.ComputeDelta().Some? }

  function Pct(d: StateDiff): i32 {
    if d.ComputeDelta().Some? && d.ComputeDelta().value.ComputeChanged? then d.ComputeDelta().value.pctBps else 0
  }

  predicate IsAboveThreshold(d: StateDiff) { HasDelta(d) && Abs(Pct(d)) >= COMPUTE_REGRESSION_BPS }

  /** Compute moved by thirty percent or more, up or down; only the one number without a magnitude of its
      width stops the count. */
  lemma ThresholdMeans(d: StateDiff)
    ensures IsAboveThreshold(d) ==> HasDelta(d) && d.ComputeDelta().value.ComputeChanged?
    ensures IsAboveThreshold(d) <==>
      match d.ComputeDelta()
      case Some(ComputeChanged(_, _, _, pct)) => pct <= -3_000 || pct >= 3_000
      case _ => false
    ensures Unrepresentable(d) <==>
      match d.ComputeDelta()
      case Some(ComputeChanged(_, _, _, pct)) => pct == -0x8000_0000
      case _ => false
  {
    FirstComputeIs(d.differences);
    hide FirstCompute;
  }

  function And(p: StateDiff -> bool, name: string): StateDiff -> bool {
    (d: StateDiff) => CategoryName(d.category) == name && p(d)
  }

  function Always(): StateDiff -> bool {
    (d: StateDiff) => true
  }

  /** The counters of one category. */
  function CategoryTally(ds: seq<StateDiff>, name: string): CategoryCounts {
    CategoryCounts(Count(ds, And(Always(), name)), Count(ds, And(IsIdentical, name)), Count(ds, And(IsComputeOnlyDiff, name)),
                   Count(ds, And(IsChanged, name)), Count(ds, And(IsCriticalDiff, name)))
  }

  function EntryFor(m: map<string, CategoryCounts>, name: string): CategoryCounts {
    if name in m then m[name] else CategoryCounts(0, 0, 0, 0, 0)
  }

  ghost predicate OutcomesTally(c: Counts, ds: seq<StateDiff>) {
    && c.identical == Count(ds, IsIdentical)
    && c.computeOnly == Count(ds, IsComputeOnlyDiff)
    && c.outcomeIdentical == Count(ds, IsOutcomeIdentical)
    && c.changed == Count(ds, IsChanged)
    && c.critical == Count(ds, IsCriticalDiff)
    && c.high == Count(ds, IsHigh)
    && c.warning == Count(ds, IsLesser)
  }

  const I32_MAX: i32 := 0x7FFF_FFFF
  const I32_MIN: i32 := -0x8000_0000

  /** Minimum and maximum over the fixtures whose compute moved, or the given defaults. */
  ghost predicate ComputeTally(c: Counts, ds: seq<StateDiff>, noneMin: i32, noneMax: i32) {
    && c.withDelta == Count(ds, HasDelta)
    && c.aboveThreshold == Count(ds, IsAboveThreshold)
    && (c.withDelta == 0 ==> c.minPct == noneMin && c.maxPct == noneMax)
    && (forall d :: d in ds && HasDelta(d) ==> c.minPct <= Pct(d) <= c.maxPct)
    && (c.withDelta > 0 ==> (exists d :: d in ds && HasDelta(d) && Pct(d) == c.minPct))
    && (c.withDelta > 0 ==> (exists d :: d in ds && HasDelta(d) && Pct(d) == c.maxPct))
  }

  ghost predicate CategoriesTally(m: map<string, CategoryCounts>, ds: seq<StateDiff>) {
    forall name :: EntryFor(m, name) == CategoryTally(ds, name)
  }

  /** The engine aborts on the one percentage whose magnitude is not representable. */
  predicate Unrepresentable(d: StateDiff) {
    HasDelta(d) && Pct(d) == I32_MIN
  }

  predicate Countable(ds: seq<StateDiff>) {
    forall d :: d in ds ==> !Unrepresentable(d)
  }

  lemma CountableStep(ds: seq<StateDiff>, i: nat)
    requires i < |ds| && Countable(ds[..i])
    ensures Unrepresentable(ds[i]) ==> !Countable(ds)
    ensures !Unrepresentable(ds[i]) ==> Countable([ds[i]]) && Countable(ds[..i + 1])
  {
  }

  // ---- one diff at a time ----------------------------------------------------------------------------------

  lemma CountPush(ds: seq<StateDiff>, d: StateDiff, p: StateDiff -> bool)
    ensures Count(ds + [d], p) == Count(ds, p) + (if p(d) then 1 else 0)
  {
  }

  lemma OutcomeCases(d: StateDiff)
    ensures IsOutcomeIdentical(d) <==> !IsChanged(d)
    ensures IsOutcomeIdentical(d) <==> d.OutcomeSeverity() == None
    ensures IsCriticalDiff(d) || IsHigh(d) ==> IsChanged(d)
  {
  }

  lemma OutcomesPush(done: seq<StateDiff>, d: StateDiff)
    ensures Count(done + [d], IsIdentical) == Count(done, IsIdentical) + (if IsIdentical(d) then 1 else 0)
    ensures Count(done + [d], IsComputeOnlyDiff) == Count(done, IsComputeOnlyDiff) + (if IsComputeOnlyDiff(d) then 1 else 0)
    ensures Count(done + [d], IsOutcomeIdentical) == Count(done, IsOutcomeIdentical) + (if IsOutcomeIdentical(d) then 1 else 0)
    ensures Count(done + [d], IsChanged) == Count(done, IsChanged) + (if IsChanged(d) then 1 else 0)
    ensures Count(done + [d], IsCriticalDiff) == Count(done, IsCriticalDiff) + (if IsCriticalDiff(d) then 1 else 0)
    ensures Count(done + [d], IsHigh) == Count(done, IsHigh) + (if IsHigh(d) then 1 else 0)
    ensures Count(done + [d], IsLesser) == Count(done, IsLesser) + (if IsLesser(d) then 1 else 0)
  {
  }

  method CountOutcome(c: Counts, ghost done: seq<StateDiff>, d: StateDiff) returns (next: Counts)
    requires OutcomesTally(c, done)
    ensures OutcomesTally(next, done + [d])
    ensures next.withDelta == c.withDelta && next.minPct == c.minPct && next.maxPct == c.maxPct
    ensures next.aboveThreshold == c.aboveThreshold && next.byCategory == c.byCategory
  {
    OutcomesPush(done, d);
    OutcomeCases(d);
    hide Count, StateDiff.OutcomeDifferences, StateDiff.OutcomeSeverity;
    next := c;
    match d.Classification() {
      case Identical =>
        next := next.(identical := c.identical + 1, outcomeIdentical := c.outcomeIdentical + 1);
      case ComputeOnly =>
        next := next.(computeOnly := c.computeOnly + 1, outcomeIdentical := c.outcomeIdentical + 1);
      case Changed =>
        next := next.(changed := c.changed + 1);
        var severity := d.OutcomeSeverity();
        if severity == Some(Critical) {
          next := next.(critical := c.critical + 1);
        } else if severity == Some(High) {
          next := next.(high := c.high + 1);
        } else {
          next := next.(warning := c.warning + 1);
        }
    }
  }

  method CountCompute(c: Counts, ghost done: seq<StateDiff>, d: StateDiff) returns (next: Counts)
    requires ComputeTally(c, done, I32_MAX, I32_MIN) && Countable([d])
    ensures ComputeTally(next, done + [d], I32_MAX, I32_MIN)
    ensures next == c.(withDelta := next.withDelta, minPct := next.minPct, maxPct := next.maxPct, aboveThreshold := next.aboveThreshold)
  {
    CountPush(done, d, HasDelta);
    CountPush(done, d, IsAboveThreshold);
    DeltaSeen(done);
    assert forall x :: x in done + [d] <==> x in done || x == d;
    hide Count, StateDiff.ComputeDelta, Pct, HasDelta;
    next := c;
    if HasDelta(d) {
      var pct := Pct(d);
      next := next.(withDelta := c.withDelta + 1, minPct := Min(c.minPct, pct), maxPct := Max(c.maxPct, pct));
      if Abs(pct) >= COMPUTE_REGRESSION_BPS {
        next := next.(aboveThreshold := c.aboveThreshold + 1);
      }
      assert c.withDelta == 0 ==> next.minPct == pct && next.maxPct == pct;
    }
  }

  lemma {:induction false} DeltaSeen(ds: seq<StateDiff>)
    ensures Count(ds, HasDelta) == 0 <==> forall d :: d in ds ==> !HasDelta(d)
  {
    hide HasDelta;
    if ds != [] {
      DeltaSeen(ds[..|ds| - 1]);
      assert forall d :: d in ds <==> d in ds[..|ds| - 1] || d == ds[|ds| - 1];
    }
  }

  /** A category's counters after one more of its diffs. */
  function Counted(entry: CategoryCounts, d: StateDiff): CategoryCounts {
    CategoryCounts(
      entry.tested + 1,
      entry.identical + (if IsIdentical(d) then 1 else 0),
      entry.computeOnly + (if IsComputeOnlyDiff(d) then 1 else 0),
      entry.changed + (if IsChanged(d) then 1 else 0),
      entry.critical + (if IsCriticalDiff(d) then 1 else 0))
  }

  lemma CategoryStep(m: map<string, CategoryCounts>, done: seq<StateDiff>, d: StateDiff)
    requires CategoriesTally(m, done)
    ensures var name := CategoryName(d.category);
      CategoriesTally(m[name := Counted(EntryFor(m, name), d)], done + [d])
  {
    var name := CategoryName(d.category);
    var next := m[name := Counted(EntryFor(m, name), d)];
    forall other ensures EntryFor(next, other) == CategoryTally(done + [d], other) {
      assert EntryFor(m, other) == CategoryTally(done, other);
      TallyPush(done, d, other);
      hide CategoryTally, CategoryName, IsIdentical, IsComputeOnlyDiff, IsChanged, IsCriticalDiff;
    }
  }

  method CountCategory(m: map<string, CategoryCounts>, ghost done: seq<StateDiff>, d: StateDiff)
    returns (next: map<string, CategoryCounts>)
    requires CategoriesTally(m, done)
    ensures CategoriesTally(next, done + [d])
  {
    CategoryStep(m, done, d);
    OutcomeCases(d);
    hide CategoriesTally, CategoryName, StateDiff.OutcomeDifferences, StateDiff.OutcomeSeverity;
    var name := CategoryName(d.category);
    var entry := EntryFor(m, name);
    entry := entry.(tested := entry.tested + 1);
    match d.Classification() {
      case Identical => entry := entry.(identical := entry.identical + 1);
      case ComputeOnly => entry := entry.(computeOnly := entry.computeOnly + 1);
      case Changed =>
        entry := entry.(changed := entry.changed + 1);
        if d.OutcomeSeverity() == Some(Critical) {
          entry := entry.(critical := entry.critical + 1);
        }
    }
    assert entry == Counted(EntryFor(m, name), d);
    next := m[name := entry];
  }

  lemma TallyPush(done: seq<StateDiff>, d: StateDiff, name: string)
    ensures var before, after, here := CategoryTally(done, name), CategoryTally(done + [d], name), CategoryName(d.category) == name;
      && after.tested == before.tested + (if here then 1 else 0)
      && after.identical == before.identical + (if here && IsIdentical(d) then 1 else 0)
      && after.computeOnly == before.computeOnly + (if here && IsComputeOnlyDiff(d) then 1 else 0)
      && after.changed == before.changed + (if here && IsChanged(d) then 1 else 0)
      && after.critical == before.critical + (if here && IsCriticalDiff(d) then 1 else 0)
  {
  }

  /** What the finished counters say. Categories nobody exercised are dropped. */
  ghost predicate Tallies(c: Counts, ds: seq<StateDiff>) {
    && OutcomesTally(c, ds)
    && ComputeTally(c, ds, 0, 0)
    && CategoriesTally(c.byCategory, ds)
    && forall name :: name in c.byCategory ==> c.byCategory[name].tested > 0
  }

  lemma NothingCounted()
    ensures forall p: StateDiff -> bool :: Count([], p) == 0
  {
  }

  lemma EmptyCategory(ds: seq<StateDiff>, name: string)
    requires CategoryTally(ds, name).tested == 0
    ensures CategoryTally(ds, name) == CategoryCounts(0, 0, 0, 0, 0)
  {
    CountBound(ds, And(IsIdentical, name), And(Always(), name));
    CountBound(ds, And(IsComputeOnlyDiff, name), And(Always(), name));
    CountBound(ds, And(IsChanged, name), And(Always(), name));
    CountBound(ds, And(IsCriticalDiff, name), And(Always(), name));
    hide Count, And;
  }

  lemma {:induction false} CountBound(ds: seq<StateDiff>, p: StateDiff -> bool, q: StateDiff -> bool)
    requires forall d :: p(d) ==> q(d)
    ensures Count(ds, p) <= Count(ds, q)
  {
    if ds != [] { CountBound(ds[..|ds| - 1], p, q); }
  }

  lemma DropsEmpty(m: map<string, CategoryCounts>, ds: seq<StateDiff>, kept: map<string, CategoryCounts>)
    requires CategoriesTally(m, ds) && kept == map name | name in m && m[name].tested > 0 :: m[name]
    ensures CategoriesTally(kept, ds)
  {
    forall name ensures EntryFor(kept, name) == CategoryTally(ds, name) {
      assert EntryFor(m, name) == CategoryTally(ds, name);
      if name in m && m[name].tested == 0 { EmptyCategory(ds, name); }
      hide CategoryTally;
    }
  }

  /** All nine categories start at zero. */
  method StartCounting() returns (c: Counts, byCategory: map<string, CategoryCounts>)
    ensures OutcomesTally(c, []) && ComputeTally(c, [], I32_MAX, I32_MIN) && CategoriesTally(byCategory, [])
  {
    NothingCounted();
    hide Count;
    c := Counts(0, 0, 0, 0, 0, 0, 0, 0, I32_MAX, I32_MIN, 0, map[]);
    byCategory := map[];
    for i := 0 to |ALL_CATEGORIES|
      invariant CategoriesTally(byCategory, [])
    {
      byCategory := byCategory[CategoryName(ALL_CATEGORIES[i]) := CategoryCounts(0, 0, 0, 0, 0)];
    }
  }

  /** Count the outcomes of a run; `None` where the engine would abort. */
  method CountOutcomes(ds: seq<StateDiff>) returns (r: Option<Counts>)
    ensures r.Some? <==> Countable(ds)
    ensures r.Some? ==> Tallies(r.value, ds)
  {
    var c, byCategory := StartCounting();
    assert ds[..0] == [];
    var i := 0;
    while i < |ds|
      invariant 0 <= i <= |ds| && Countable(ds[..i])
      invariant OutcomesTally(c, ds[..i]) && ComputeTally(c, ds[..i], I32_MAX, I32_MIN) && CategoriesTally(byCategory, ds[..i])
    {
      var d := ds[i];
      assert ds[..i + 1] == ds[..i] + [d];
      CountableStep(ds, i);
      hide *;
      if Unrepresentable(d) {
        return None;
      }
      byCategory := CountCategory(byCategory, ds[..i], d);
      c := AddCompute(c, ds[..i], d);
      i := i + 1;
    }
    assert ds[..i] == ds;
    var kept := map name | name in byCategory && byCategory[name].tested > 0 :: byCategory[name];
    Finished(c, ds, byCategory, kept);
    r := Some((if c.withDelta > 0 then c else c.(minPct := 0, maxPct := 0)).(byCategory := kept));
  }

  lemma Finished(c: Counts, ds: seq<StateDiff>, byCategory: map<string, CategoryCounts>, kept: map<string, CategoryCounts>)
    requires OutcomesTally(c, ds) && ComputeTally(c, ds, I32_MAX, I32_MIN) && CategoriesTally(byCategory, ds)
    requires kept == map name | name in byCategory && byCategory[name].tested > 0 :: byCategory[name]
    ensures Tallies((if c.withDelta > 0 then c else c.(minPct := 0, maxPct := 0)).(byCategory := kept), ds)
  {
    DropsEmpty(byCategory, ds, kept);
    DeltaSeen(ds);
    hide CategoriesTally, Count, HasDelta, Pct;
  }

  method AddCompute(c: Counts, ghost done: seq<StateDiff>, d: StateDiff) returns (next: Counts)
    requires Countable([d]) && OutcomesTally(c, done) && ComputeTally(c, done, I32_MAX, I32_MIN)
    ensures OutcomesTally(next, done + [d]) && ComputeTally(next, done + [d], I32_MAX, I32_MIN)
  {
    var counted := CountOutcome(c, done, d);
    next := CountCompute(counted, done, d);
  }

  // ---- what the counters guarantee ----------------------------------------------------------------------------

  lemma {:induction false} CountSplits(ds: seq<StateDiff>, whole: StateDiff -> bool, p: StateDiff -> bool, q: StateDiff -> bool)
    requires forall d :: (whole(d) <==> p(d) || q(d)) && !(p(d) && q(d))
    ensures Count(ds, whole) == Count(ds, p) + Count(ds, q)
  {
    if ds != [] { CountSplits(ds[..|ds| - 1], whole, p, q); }
  }

  lemma {:induction false} CountAll(ds: seq<StateDiff>)
    ensures Count(ds, Always()) == |ds|
  {
    if ds != [] { CountAll(ds[..|ds| - 1]); }
  }

  predicate IsSevere(d: StateDiff) { IsCriticalDiff(d) || IsHigh(d) }

  /** Every fixture lands in exactly one outcome, and every changed fixture in exactly one severity. */
  lemma OutcomesPartition(c: Counts, ds: seq<StateDiff>)
    requires OutcomesTally(c, ds)
    ensures c.identical + c.computeOnly + c.changed == |ds|
    ensures c.identical + c.computeOnly == c.outcomeIdentical
    ensures c.critical + c.high + c.warning == c.changed
  {
    forall d ensures (IsOutcomeIdentical(d) <==> !IsChanged(d)) && (IsSevere(d) ==> IsChanged(d)) && !(IsCriticalDiff(d) && IsHigh(d)) {
      OutcomeCases(d);
    }
    forall d ensures IsOutcomeIdentical(d) <==> IsIdentical(d) || IsComputeOnlyDiff(d) {
      OutcomeCases(d);
    }
    CountAll(ds);
    assert forall d :: !(IsIdentical(d) && IsComputeOnlyDiff(d));
    assert forall d :: IsLesser(d) <==> IsChanged(d) && !IsSevere(d);
    assert forall d :: IsSevere(d) <==> IsCriticalDiff(d) || IsHigh(d);
    hide Count, IsOutcomeIdentical, IsIdentical, IsComputeOnlyDiff, IsChanged, IsLesser, IsSevere, IsCriticalDiff, IsHigh;
    CountSplits(ds, IsOutcomeIdentical, IsIdentical, IsComputeOnlyDiff);
    CountSplits(ds, Always(), IsOutcomeIdentical, IsChanged);
    CountSplits(ds, IsChanged, IsSevere, IsLesser);
    CountSplits(ds, IsSevere, IsCriticalDiff, IsHigh);
  }

  function SumTested(c: Counts, cats: seq<Category>): nat {
    if cats == [] then 0 else EntryFor(c.byCategory, CategoryName(cats[0])).tested + SumTested(c, cats[1..])
  }

  const CATEGORY_NAMES: seq<string> :=
    ["healthy", "moderate", "small", "large", "fractional", "near-liquidation", "boundary", "withdraw-boundary", "liquidation-boundary"]

  /** The nine categories are counted under their own names. */
  lemma CategoryNamesMean(i: nat)
    requires i < 9
    ensures CategoryName(ALL_CATEGORIES[i]) == CATEGORY_NAMES[i]
  {
  }

  lemma CategoryNamesDiffer(a: Category, b: Category)
    requires CategoryName(a) == CategoryName(b)
    ensures a == b
  {
  }

  /** The diff falls in one of the listed categories. */
  function Among(cats: seq<Category>): StateDiff -> bool {
    (d: StateDiff) => d.category in cats
  }

  lemma {:induction false} TestedAmong(c: Counts, ds: seq<StateDiff>, cats: seq<Category>)
    requires CategoriesTally(c.byCategory, ds)
    requires forall i, j :: 0 <= i < j < |cats| ==> cats[i] != cats[j]
    ensures SumTested(c, cats) == Count(ds, Among(cats))
  {
    if cats == [] {
      NoneAmong(ds);
    } else {
      TestedAmong(c, ds, cats[1..]);
      var name := CategoryName(cats[0]);
      assert EntryFor(c.byCategory, name) == CategoryTally(ds, name);
      var here := And(Always(), name);
      forall d ensures (Among(cats)(d) <==> here(d) || Among(cats[1..])(d)) && !(here(d) && Among(cats[1..])(d)) {
        if CategoryName(d.category) == name { CategoryNamesDiffer(d.category, cats[0]); }
        assert cats[0] !in cats[1..];
        assert d.category in cats <==> d.category == cats[0] || d.category in cats[1..];
      }
      hide Count, Among, And, CategoryName, CategoriesTally;
      CountSplits(ds, Among(cats), here, Among(cats[1..]));
    }
  }

  lemma {:induction false} NoneAmong(ds: seq<StateDiff>)
    ensures Count(ds, Among([])) == 0
  {
    if ds != [] { NoneAmong(ds[..|ds| - 1]); }
  }

  lemma CategoriesComplete(c: Category)
    ensures c in ALL_CATEGORIES
  {
  }

  /** The per-category counts cover the run. */
  lemma CategoriesPartition(c: Counts, ds: seq<StateDiff>)
    requires CategoriesTally(c.byCategory, ds)
    ensures SumTested(c, ALL_CATEGORIES) == |ds|
  {
    TestedAmong(c, ds, ALL_CATEGORIES);
    forall d ensures Always()(d) <==> Among(ALL_CATEGORIES)(d) {
      CategoriesComplete(d.category);
    }
    CountAll(ds);
    CountBound(ds, Always(), Among(ALL_CATEGORIES));
    CountBound(ds, Among(ALL_CATEGORIES), Always());
  }

  lemma {:induction false} CriticalRecordsCounted(byId: map<string, Fixture>, ds: seq<StateDiff>)
    ensures |Select(Totals.Records(byId, ds), IsCriticalRecord)| <= Count(ds, IsCriticalDiff)
    ensures |Totals.Records(byId, ds)| <= |ds|
    ensures |Totals.Records(byId, ds)| == |ds| ==>
      |Select(Totals.Records(byId, ds), IsCriticalRecord)| == Count(ds, IsCriticalDiff)
  {
    if ds == [] {
      assert Totals.Records(byId, ds) == [] && Select([], IsCriticalRecord) == [];
    } else {
      var init, last := ds[..|ds| - 1], ds[|ds| - 1];
      assert ds == init + [last];
      CountPush(init, last, IsCriticalDiff);
      hide *;
      CriticalRecordsCounted(byId, init);
      T.RecordsAppend(byId, init, last);
      T.SelectAppend(Totals.Records(byId, init), RecordFor(byId, last), IsCriticalRecord);
      OneRecord(byId, last);
      assert |Select(RecordFor(byId, last), IsCriticalRecord)| <= |RecordFor(byId, last)|;
    }
  }

  lemma OneRecord(byId: map<string, Fixture>, d: StateDiff)
    ensures |RecordFor(byId, d)| <= 1
    ensures |Select(RecordFor(byId, d), IsCriticalRecord)| == if RecordFor(byId, d) != [] && IsCriticalDiff(d) then 1 else 0
    ensures |RecordFor(byId, d)| == 0 <==> RecordFor(byId, d) == []
  {
  }

  /** The economic summary never counts more critical positions than the behavioural one, and the
      two agree as soon as every compared fixture carries a position. */
  lemma CriticalCountsAgree(c: Counts, s: Totals.Summary, fs: seq<Fixture>, ds: seq<StateDiff>)
    requires OutcomesTally(c, ds) && Summarizes(EvaluateAll(fs, ds), s)
    ensures s.critical.positions <= c.critical && s.positionsValued <= |ds|
    ensures s.positionsValued == |ds| ==> s.critical.positions == c.critical
  {
    CriticalRecordsCounted(FixturesById(fs), ds);
    hide Select, Count, FixturesById, Totals.Records, IsCriticalDiff;
  }

  // ---- the report --------------------------------------------------------------------------------------------

  const GROUP_PREFIX := "regression-group:"

  function StripGroup(id: string): string {
    if GROUP_PREFIX <= id then id[|GROUP_PREFIX|..] else id
  }

  function FindCluster(cs: seq<RegressionCluster>, id: string): Option<RegressionCluster> {
    if cs == [] then None else if cs[0].id == id then Some(cs[0]) else FindCluster(cs[1..], id)
  }

  function FindDiff(ds: seq<StateDiff>, id: string): Option<StateDiff> {
    if ds == [] then None else if ds[0].fixtureId == id then Some(ds[0]) else FindDiff(ds[1..], id)
  }

  function FindFixture(fs: seq<Fixture>, id: string): Option<Fixture> {
    if fs == [] then None else if fs[0].id == id then Some(fs[0]) else FindFixture(fs[1..], id)
  }

  /** The lookups find the first fixture, and the first diff, of an id. */
  lemma {:induction false} FindsFirstFixture(fs: seq<Fixture>, i: nat)
    requires i < |fs| && forall k :: 0 <= k < i ==> fs[k].id != fs[i].id
    ensures FindFixture(fs, fs[i].id) == Some(fs[i])
  {
    if i > 0 { FindsFirstFixture(fs[1..], i - 1); }
  }

  lemma {:induction false} FindsFirstDiff(ds: seq<StateDiff>, i: nat)
    requires i < |ds| && forall k :: 0 <= k < i ==> ds[k].fixtureId != ds[i].fixtureId
    ensures FindDiff(ds, ds[i].fixtureId) == Some(ds[i])
  {
    if i > 0 { FindsFirstDiff(ds[1..], i - 1); }
  }

  lemma {:induction false} FindsOnly(cs: seq<RegressionCluster>, c: RegressionCluster)
    requires c in cs && forall i, j :: 0 <= i < j < |cs| ==> cs[i].id != cs[j].id
    ensures FindCluster(cs, c.id) == Some(c)
  {
    if cs[0] != c {
      assert c in cs[1..];
      var k :| 0 <= k < |cs[1..]| && cs[1..][k] == c;
      assert cs[0].id != cs[k + 1].id;
      FindsOnly(cs[1..], c);
    }
  }

  lemma ClusterStarts(ms: seq<Member>, c: RegressionCluster)
    requires NamedMembers(ms) && c in ClustersOf(ms)
    ensures StartsAsConsequence(c.id)
  {
    KeysAreNamed(ms);
    hide *;
    var i := T.ClusterIndex(ms, c);
    T.ClusterIdAt(ms, SortedKeys(KeysOf(ms)), i);
    IdsAreNotPrefixed(SortedKeys(KeysOf(ms)), i);
  }

  lemma PrefixStrips(id: string)
    requires StartsAsConsequence(id)
    ensures StripGroup(id) == id && StripGroup("regression-group:" + id) == id
  {
  }

  /** Both spellings of a cluster's id find that cluster and no other. */
  lemma LookupIsUnambiguous(fs: seq<Fixture>, ds: seq<StateDiff>, es: seq<FixtureEconomics>, c: RegressionCluster)
    requires c in Clusters(fs, ds, es)
    ensures FindCluster(Clusters(fs, ds, es), StripGroup(c.id)) == Some(c)
    ensures FindCluster(Clusters(fs, ds, es), StripGroup("regression-group:" + c.id)) == Some(c)
  {
    var ms := MembersOf(FixturesById(fs), RecordsById(es), ds);
    FindingsAreNamed(FixturesById(fs), RecordsById(es), ds);
    assert Clusters(fs, ds, es) == ClustersOf(ms);
    hide *;
    forall i: nat, j: nat | i < j < |Clusters(fs, ds, es)| ensures Clusters(fs, ds, es)[i].id != Clusters(fs, ds, es)[j].id {
      ClusterIdsAreDistinct(fs, ds, es, i, j);
    }
    ClusterStarts(ms, c);
    PrefixStrips(c.id);
    FindsOnly(Clusters(fs, ds, es), c);
  }

  class Report {
    const programId: string
    const v1Artifact: string
    const v2Artifact: string
    const summary: Counts
    const economics: Totals.Summary
    const fixtureEconomics: seq<FixtureEconomics>
    var clusters: seq<RegressionCluster>
    const diffs: seq<StateDiff>

    constructor (programId: string, v1Artifact: string, v2Artifact: string, summary: Counts, economics: Totals.Summary,
                 fixtureEconomics: seq<FixtureEconomics>, clusters: seq<RegressionCluster>, diffs: seq<StateDiff>)
      ensures this.programId == programId && this.v1Artifact == v1Artifact && this.v2Artifact == v2Artifact
      ensures this.summary == summary && this.economics == economics && this.fixtureEconomics == fixtureEconomics
      ensures this.clusters == clusters && this.diffs == diffs
    {
      this.programId := programId;
      this.v1Artifact := v1Artifact;
      this.v2Artifact := v2Artifact;
      this.summary := summary;
      this.economics := economics;
      this.fixtureEconomics := fixtureEconomics;
      this.clusters := clusters;
      this.diffs := diffs;
    }

    function Cluster(id: string): Option<RegressionCluster>
      reads this`clusters
    {
      FindCluster(clusters, StripGroup(id))
    }

    /** Everything in the report is derived from the diffs and their fixtures. */
    ghost predicate Describes(fixtures: seq<Fixture>)
      reads this`clusters
    {
      && Tallies(summary, diffs)
      && fixtureEconomics == EvaluateAll(fixtures, diffs)
      && Summarizes(fixtureEconomics, economics)
      && clusters == Clusters(fixtures, diffs, fixtureEconomics)
    }
  }

  /** The net value of a run is a signed 128-bit amount. */
  predicate NetFits(es: seq<FixtureEconomics>) {
    I128_MIN <= M.SumUsd(Collaterals(es)) as int - M.SumUsd(Debts(es)) <= I128_MAX
  }

  /** Build a report, or abort as the engine would. */
  method NewReport(programId: string, v1Artifact: string, v2Artifact: string, fixtures: seq<Fixture>, diffs: seq<StateDiff>)
    returns (r: Option<Report>)
    ensures r.Some? <==> Countable(diffs) && NetFits(EvaluateAll(fixtures, diffs))
    ensures r.Some? ==> fresh(r.value) && r.value.diffs == diffs && r.value.Describes(fixtures)
    ensures r.Some? ==> r.value.programId == programId && r.value.v1Artifact == v1Artifact && r.value.v2Artifact == v2Artifact
  {
    assert forall es :: NetFits(es) <==> I128_MIN <= M.SumUsd(Collaterals(es)) as int - M.SumUsd(Debts(es)) <= I128_MAX;
    hide *;
    var summary := CountOutcomes(diffs);
    if summary == None {
      return None;
    }
    var es := EvaluateAll(fixtures, diffs);
    var economics := Summarize(es);
    if economics == None {
      return None;
    }
    var clusters := Build(fixtures, diffs, es);
    var report := new Report(programId, v1Artifact, v2Artifact, summary.value, economics.value, es, clusters, diffs);
    assert report.Describes(fixtures) by {
      DescribesBy(report, fixtures);
    }
    r := Some(report);
  }

  lemma DescribesBy(r: Report, fixtures: seq<Fixture>)
    requires Tallies(r.summary, r.diffs) && r.fixtureEconomics == EvaluateAll(fixtures, r.diffs)
    requires Summarizes(r.fixtureEconomics, r.economics)
    requires r.clusters == Clusters(fixtures, r.diffs, r.fixtureEconomics)
    ensures r.Describes(fixtures)
  {
    hide Tallies, EvaluateAll, Summarizes, Clusters;
  }
}
