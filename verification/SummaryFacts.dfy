/** What a record and the corpus summary say about the fixtures and comparisons they come from
    (engine/src/impact.rs:162-293). */
module SummaryFacts {
  import opened Prelude
  import opened Types
  import opened Diff
  import opened DiffProperties
  import opened Impact
  import opened Totals
  import opened ClusterProperties
  import I = Interpret
  import M = Money

  // ---- one record --------------------------------------------------------------------------------------

  /** The economics a run leaves behind: those of its account labelled as the position, if it has one. */
  ghost predicate LeftBehind(post: Option<I.PositionEconomics>, r: ExecutionResult) {
    if "position" in r.accounts then post == I.EconomicsOf(r.accounts["position"].data) else post == None
  }

  /** A record exists exactly when the fixture's first position account decodes as one. It holds that
      account's economics before, what the first build left and what the second left, and whether any
      behaviour, or an outcome or a liquidation status, changed. */
  lemma EvaluateMeans(fixture: Fixture, diff: StateDiff)
    ensures Evaluate(fixture, diff).Some? <==>
      exists i :: IsFirst(fixture.accounts, "position", i) && I.EconomicsOf(fixture.accounts[i].account.data).Some?
    ensures Evaluate(fixture, diff).Some? ==>
      var e := Evaluate(fixture, diff).value;
      && e.fixtureId == fixture.id && e.category == fixture.category
      && (exists i :: IsFirst(fixture.accounts, "position", i) && I.EconomicsOf(fixture.accounts[i].account.data) == Some(e.baseline))
      && LeftBehind(e.v1Post, diff.v1) && LeftBehind(e.v2Post, diff.v2)
      && (e.affected <==> exists d :: d in diff.differences && !d.ComputeChanged?)
      && (e.critical <==> exists d :: d in diff.differences && (d.SuccessChanged? || d.LiquidationStatusChanged?))
      && e.consequences == Consequences(diff.differences)
  {
    FindAccountIsFirst(fixture.accounts, "position");
    CriticalIffDecisive(diff);
    AffectedMeans(diff.differences);
    forall i, j | IsFirst(fixture.accounts, "position", i) && IsFirst(fixture.accounts, "position", j) ensures i == j {
    }
    hide FindAccount, IsFirst, I.EconomicsOf, Consequences, StateDiff.IsCritical, IsEconomicallyAffected;
  }

  lemma AffectedMeans(ds: seq<Difference>)
    ensures IsEconomicallyAffected(ds) <==> exists d :: d in ds && !d.ComputeChanged?
  {
  }

  ghost predicate RecordOf(fs: seq<Fixture>, ds: seq<StateDiff>, f: Fixture, d: StateDiff, e: FixtureEconomics) {
    f in fs && d in ds && f.id == d.fixtureId && Evaluate(f, d) == Some(e)
  }

  lemma {:induction false} RecordsMembers(fm: map<string, Fixture>, ds: seq<StateDiff>, e: FixtureEconomics)
    ensures e in Records(fm, ds) <==> exists d :: d in ds && d.fixtureId in fm && Evaluate(fm[d.fixtureId], d) == Some(e)
  {
    if ds != [] {
      RecordsMembers(fm, ds[1..], e);
      assert forall d :: d in ds <==> d == ds[0] || d in ds[1..];
      assert e in RecordFor(fm, ds[0]) <==> ds[0].fixtureId in fm && Evaluate(fm[ds[0].fixtureId], ds[0]) == Some(e);
      hide Evaluate, RecordFor;
    }
  }

  /** The records of a run are those of its comparisons, each with the fixture of its id. */
  lemma RecordsAre(fs: seq<Fixture>, ds: seq<StateDiff>, e: FixtureEconomics)
    requires DistinctFixtures(fs)
    ensures e in EvaluateAll(fs, ds) <==> exists f, d :: RecordOf(fs, ds, f, d, e)
  {
    FixtureIds(fs);
    RecordsMembers(FixturesById(fs), ds, e);
    hide Records, FixturesById, Evaluate, DistinctFixtures;
    if exists f, d :: RecordOf(fs, ds, f, d, e) {
      var f, d :| RecordOf(fs, ds, f, d, e);
      assert FixturesById(fs)[d.fixtureId] == f;
    }
    if e in EvaluateAll(fs, ds) {
      var d :| d in ds && d.fixtureId in FixturesById(fs) && Evaluate(FixturesById(fs)[d.fixtureId], d) == Some(e);
      assert RecordOf(fs, ds, FixturesById(fs)[d.fixtureId], d, e);
    }
  }

  // ---- the summary ----------------------------------------------------------------------------------------

  ghost function CollateralWhere(es: seq<FixtureEconomics>, p: FixtureEconomics -> bool): seq<nat> {
    seq(|es|, i requires 0 <= i < |es| => if p(es[i]) then es[i].baseline.collateralValueUsd else 0)
  }

  ghost function DebtWhere(es: seq<FixtureEconomics>, p: FixtureEconomics -> bool): seq<nat> {
    seq(|es|, i requires 0 <= i < |es| => if p(es[i]) then es[i].baseline.debtValueUsd else 0)
  }

  ghost function OnesWhere(es: seq<FixtureEconomics>, p: FixtureEconomics -> bool): seq<nat> {
    seq(|es|, i requires 0 <= i < |es| => if p(es[i]) then 1 else 0)
  }

  /** The group counts the records that pass the test and adds up their capital, clamped once. */
  ghost predicate Totalled(g: CapitalGroup, es: seq<FixtureEconomics>, p: FixtureEconomics -> bool) {
    && g.positions == M.TrueSum(OnesWhere(es, p))
    && g.collateral == Min(M.TrueSum(CollateralWhere(es, p)), U128_MAX)
    && g.debt == Min(M.TrueSum(DebtWhere(es, p)), U128_MAX)
  }

  lemma SumSnoc(s: seq<nat>, x: nat)
    ensures M.TrueSum(s + [x]) == M.TrueSum(s) + x
  {
    M.TrueSumAppend(s, [x]);
    assert M.TrueSum([x]) == x + M.TrueSum([]);
  }

  lemma {:induction false} SelectSums(es: seq<FixtureEconomics>, p: FixtureEconomics -> bool)
    ensures |Select(es, p)| == M.TrueSum(OnesWhere(es, p))
    ensures M.TrueSum(Collaterals(Select(es, p))) == M.TrueSum(CollateralWhere(es, p))
    ensures M.TrueSum(Debts(Select(es, p))) == M.TrueSum(DebtWhere(es, p))
  {
    if es != [] {
      var init, last := es[..|es| - 1], es[|es| - 1];
      SelectSums(init, p);
      assert OnesWhere(es, p) == OnesWhere(init, p) + [if p(last) then 1 else 0];
      assert CollateralWhere(es, p) == CollateralWhere(init, p) + [if p(last) then last.baseline.collateralValueUsd else 0];
      assert DebtWhere(es, p) == DebtWhere(init, p) + [if p(last) then last.baseline.debtValueUsd else 0];
      SumSnoc(OnesWhere(init, p), if p(last) then 1 else 0);
      SumSnoc(CollateralWhere(init, p), if p(last) then last.baseline.collateralValueUsd else 0);
      SumSnoc(DebtWhere(init, p), if p(last) then last.baseline.debtValueUsd else 0);
      var s := Select(init, p);
      assert Select(es, p) == s + (if p(last) then [last] else []);
      assert Collaterals(s + [last]) == Collaterals(s) + [last.baseline.collateralValueUsd];
      assert Debts(s + [last]) == Debts(s) + [last.baseline.debtValueUsd];
      SumSnoc(Collaterals(s), last.baseline.collateralValueUsd);
      SumSnoc(Debts(s), last.baseline.debtValueUsd);
      assert s + [] == s;
      hide *;
    }
  }

  lemma SelectTotals(es: seq<FixtureEconomics>, p: FixtureEconomics -> bool)
    ensures Totalled(Capital(Select(es, p)), es, p)
  {
    SelectSums(es, p);
    M.SumIsClamped(Collaterals(Select(es, p)));
    M.SumIsClamped(Debts(Select(es, p)));
    hide Select, M.TrueSum, M.SumUsd, Collaterals, Debts, CollateralWhere, DebtWhere;
  }

  lemma {:induction false} SelectAgrees(es: seq<FixtureEconomics>, p: FixtureEconomics -> bool, q: FixtureEconomics -> bool)
    requires forall e :: e in es ==> p(e) == q(e)
    ensures Select(es, p) == Select(es, q)
  {
    if es != [] { SelectAgrees(es[..|es| - 1], p, q); }
  }

  predicate Anything(e: FixtureEconomics) { true }

  lemma {:induction false} SelectAnything(es: seq<FixtureEconomics>)
    ensures Select(es, Anything) == es
  {
    if es != [] { SelectAnything(es[..|es| - 1]); }
  }

  predicate HasConsequence(e: FixtureEconomics) {
    e.consequences != []
  }

  predicate BeyondValues(e: FixtureEconomics) {
    exists c :: c in e.consequences && c != ValueChanged
  }

  /** The summary of a run, with every group stated on the records' consequences: all positions, those with
      any consequence, those with one beyond changed values, the newly liquidatable, and each consequence. */
  lemma SummaryMeans(fixtures: seq<Fixture>, diffs: seq<StateDiff>, s: Summary)
    requires Summarizes(EvaluateAll(fixtures, diffs), s)
    ensures var es := EvaluateAll(fixtures, diffs);
      && Totalled(CapitalGroup(s.positionsValued, s.totalCollateral, s.totalDebt), es, Anything)
      && s.totalNet == s.totalCollateral as int - s.totalDebt
      && Totalled(s.affected, es, HasConsequence)
      && Totalled(s.critical, es, BeyondValues)
      && Totalled(s.newlyLiquidatable, es, Listing(NewlyLiquidatable))
      && (forall c: EconomicConsequence :: c.AsStr() in s.byConsequence && Totalled(s.byConsequence[c.AsStr()], es, Listing(c)))
  {
    var es := EvaluateAll(fixtures, diffs);
    RecordsAreCoherent(FixturesById(fixtures), diffs);
    assert forall e :: e in es ==> Coherent(e);
    SelectTotals(es, Anything);
    SelectTotals(es, HasConsequence);
    SelectTotals(es, BeyondValues);
    SelectTotals(es, Listing(NewlyLiquidatable));
    SelectAnything(es);
    assert Capital(es) == CapitalGroup(s.positionsValued, s.totalCollateral, s.totalDebt);
    forall e | e in es
      ensures IsAffected(e) == HasConsequence(e) && IsCriticalRecord(e) == BeyondValues(e) && IsNewlyLiquidatable(e) == Listing(NewlyLiquidatable)(e)
    {
      assert Coherent(e);
    }
    SelectAgrees(es, IsAffected, HasConsequence);
    SelectAgrees(es, IsCriticalRecord, BeyondValues);
    SelectAgrees(es, IsNewlyLiquidatable, Listing(NewlyLiquidatable));
    hide EvaluateAll, Capital, Select, Totalled, Coherent, EconomicConsequence.AsStr, M.SumUsd, Collaterals, Debts, Listing;
    forall c: EconomicConsequence
      ensures c.AsStr() in s.byConsequence && Totalled(s.byConsequence[c.AsStr()], es, Listing(c))
    {
      EveryConsequence(c);
      MentioningIsSelecting(es, c);
      SelectTotals(es, Listing(c));
      hide Mentioning;
    }
  }
}
