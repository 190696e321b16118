/** Per-fixture economic records and the corpus summary (engine/src/impact.rs). */
module Totals {
  import opened Prelude
  import opened Types
  import opened Order
  import opened Diff
  import opened Impact
  import I = Interpret
  import R = Reference
  import M = Money

  datatype FixtureEconomics = FixtureEconomics(
    fixtureId: string, category: Category, baseline: I.PositionEconomics,
    v1Post: Option<I.PositionEconomics>, v2Post: Option<I.PositionEconomics>,
    affected: bool, critical: bool, consequences: seq<EconomicConsequence>)

  function PositionAfter(result: ExecutionResult): Option<I.PositionEconomics> {
    if POSITION_LABEL in result.accounts then I.EconomicsOf(result.accounts[POSITION_LABEL].data) else None
  }

  /** The economic record of one fixture, if it carries a position account. */
  function Evaluate(fixture: Fixture, diff: StateDiff): Option<FixtureEconomics> {
    match fixture.Account(POSITION_LABEL)
    case None => None
    case Some(named) =>
      match I.EconomicsOf(named.account.data)
      case None => None
      case Some(baseline) =>
        Some(FixtureEconomics(
          fixture.id, fixture.category, baseline, PositionAfter(diff.v1), PositionAfter(diff.v2),
          IsEconomicallyAffected(diff.differences), diff.IsCritical(), Consequences(diff.differences)))
  }

  /** Fixtures by id; a repeated id keeps the last. */
  function FixturesById(fixtures: seq<Fixture>): map<string, Fixture> {
    if fixtures == [] then map[]
    else FixturesById(fixtures[..|fixtures| - 1])[fixtures[|fixtures| - 1].id := fixtures[|fixtures| - 1]]
  }

  function RecordFor(byId: map<string, Fixture>, diff: StateDiff): seq<FixtureEconomics> {
    if diff.fixtureId !in byId then []
    else
      match Evaluate(byId[diff.fixtureId], diff)
      case None => []
      case Some(e) => [e]
  }

  function Records(byId: map<string, Fixture>, diffs: seq<StateDiff>): seq<FixtureEconomics> {
    if diffs == [] then [] else RecordFor(byId, diffs[0]) + Records(byId, diffs[1..])
  }

  /** Records for a whole run, fixtures and diffs matched by id. */
  function EvaluateAll(fixtures: seq<Fixture>, diffs: seq<StateDiff>): seq<FixtureEconomics> {
    Records(FixturesById(fixtures), diffs)
  }

  /** The flags of a record are functions of its consequences. */
  ghost predicate Coherent(e: FixtureEconomics) {
    && (e.affected <==> e.consequences != [])
    && (e.critical <==> exists c :: c in e.consequences && c != ValueChanged)
    && (ValueChanged in e.consequences ==> e.consequences == [ValueChanged])
    && StrictlySorted(CompareConsequences, e.consequences)
  }

  lemma EvaluateIsCoherent(fixture: Fixture, diff: StateDiff)
    requires Evaluate(fixture, diff).Some?
    ensures Coherent(Evaluate(fixture, diff).value)
  {
    LayersAgree(diff);
    ConsequencesExactly(diff.differences);
    hide StateDiff.IsCritical, IsEconomicallyAffected, Consequences, StrictlySorted, I.EconomicsOf, FindAccount;
  }

  lemma {:induction false} RecordsAreCoherent(byId: map<string, Fixture>, diffs: seq<StateDiff>)
    ensures forall e :: e in Records(byId, diffs) ==> Coherent(e)
  {
    if diffs != [] {
      RecordsAreCoherent(byId, diffs[1..]);
      if diffs[0].fixtureId in byId && Evaluate(byId[diffs[0].fixtureId], diffs[0]).Some? {
        EvaluateIsCoherent(byId[diffs[0].fixtureId], diffs[0]);
      }
      hide Evaluate, Coherent;
    }
  }

  // ---- capital -----------------------------------------------------------------------------------

  datatype CapitalGroup = CapitalGroup(positions: nat, collateral: u128, debt: u128) {
    function Add(e: FixtureEconomics): CapitalGroup {
      CapitalGroup(positions + 1,
                   M.SaturatingAdd(collateral, e.baseline.collateralValueUsd),
                   M.SaturatingAdd(debt, e.baseline.debtValueUsd))
    }
  }

  function Collaterals(es: seq<FixtureEconomics>): (r: seq<u128>)
    ensures |r| == |es| && forall i :: 0 <= i < |es| ==> r[i] == es[i].baseline.collateralValueUsd
  {
    seq(|es|, i requires 0 <= i < |es| => es[i].baseline.collateralValueUsd)
  }

  function Debts(es: seq<FixtureEconomics>): (r: seq<u128>)
    ensures |r| == |es| && forall i :: 0 <= i < |es| ==> r[i] == es[i].baseline.debtValueUsd
  {
    seq(|es|, i requires 0 <= i < |es| => es[i].baseline.debtValueUsd)
  }

  /** Positions counted and capital summed over a list of records. */
  function Capital(es: seq<FixtureEconomics>): CapitalGroup {
    CapitalGroup(|es|, M.SumUsd(Collaterals(es)), M.SumUsd(Debts(es)))
  }

  lemma SumPush(values: seq<u128>, v: u128)
    ensures M.SumUsd(values + [v]) == M.SaturatingAdd(M.SumUsd(values), v)
  {
    M.SumIsClamped(values);
    M.SumIsClamped(values + [v]);
    M.TrueSumAppend(values, [v]);
    hide M.SumUsd;
    assert M.TrueSum([v]) == v;
  }

  lemma CapitalPush(es: seq<FixtureEconomics>, e: FixtureEconomics)
    ensures Capital(es + [e]) == Capital(es).Add(e)
  {
    SumPush(Collaterals(es), e.baseline.collateralValueUsd);
    SumPush(Debts(es), e.baseline.debtValueUsd);
    assert Collaterals(es + [e]) == Collaterals(es) + [e.baseline.collateralValueUsd];
    assert Debts(es + [e]) == Debts(es) + [e.baseline.debtValueUsd];
    hide M.SumUsd, M.SaturatingAdd;
  }

  /** The records satisfying a test, in order. */
  function Select(es: seq<FixtureEconomics>, p: FixtureEconomics -> bool): seq<FixtureEconomics> {
    if es == [] then []
    else
      var last := es[|es| - 1];
      Select(es[..|es| - 1], p) + (if p(last) then [last] else [])
  }

  lemma SelectPush(es: seq<FixtureEconomics>, e: FixtureEconomics, p: FixtureEconomics -> bool)
    ensures Select(es + [e], p) == Select(es, p) + (if p(e) then [e] else [])
  {
  }

  function Mentions(cs: seq<EconomicConsequence>, c: EconomicConsequence, e: FixtureEconomics): seq<FixtureEconomics> {
    if cs == [] then [] else Mentions(cs[..|cs| - 1], c, e) + (if cs[|cs| - 1] == c then [e] else [])
  }

  /** A record once for every time it lists a consequence. */
  function Mentioning(es: seq<FixtureEconomics>, c: EconomicConsequence): seq<FixtureEconomics> {
    if es == [] then [] else Mentioning(es[..|es| - 1], c) + Mentions(es[|es| - 1].consequences, c, es[|es| - 1])
  }

  predicate IsAffected(e: FixtureEconomics) { e.affected }

  predicate IsCriticalRecord(e: FixtureEconomics) { e.critical }

  predicate IsNewlyLiquidatable(e: FixtureEconomics) { NewlyLiquidatable in e.consequences }

  function Listing(c: EconomicConsequence): FixtureEconomics -> bool {
    (e: FixtureEconomics) => c in e.consequences
  }

  datatype Summary = Summary(
    positionsValued: nat, totalCollateral: u128, totalDebt: u128, totalNet: i128,
    affected: CapitalGroup, critical: CapitalGroup, newlyLiquidatable: CapitalGroup,
    byConsequence: map<string, CapitalGroup>)

  /** Every consequence has an entry, counting the records that list it. */
  ghost predicate GroupsBy(m: map<string, CapitalGroup>, es: seq<FixtureEconomics>) {
    && m.Keys == (set c | c in ALL_CONSEQUENCES :: c.AsStr())
    && forall c :: c in ALL_CONSEQUENCES ==> m[c.AsStr()] == Capital(Mentioning(es, c))
  }

  lemma ConsequenceNamesDiffer(a: EconomicConsequence, b: EconomicConsequence)
    requires a.AsStr() == b.AsStr()
    ensures a == b
  {
  }

  lemma EveryConsequence(c: EconomicConsequence)
    ensures c in ALL_CONSEQUENCES
  {
  }

  ghost predicate GroupsPartly(m: map<string, CapitalGroup>, es: seq<FixtureEconomics>, e: FixtureEconomics, k: nat)
    requires k <= |e.consequences|
  {
    && m.Keys == (set c | c in ALL_CONSEQUENCES :: c.AsStr())
    && forall c :: c in ALL_CONSEQUENCES ==>
         m[c.AsStr()] == Capital(Mentioning(es, c) + Mentions(e.consequences[..k], c, e))
  }

  lemma GroupStep(es: seq<FixtureEconomics>, e: FixtureEconomics, k: nat, c: EconomicConsequence)
    requires k < |e.consequences|
    ensures var before := Capital(Mentioning(es, c) + Mentions(e.consequences[..k], c, e));
      Capital(Mentioning(es, c) + Mentions(e.consequences[..k + 1], c, e))
        == if e.consequences[k] == c then before.Add(e) else before
  {
    assert e.consequences[..k + 1][..k] == e.consequences[..k];
    assert Mentions(e.consequences[..k], c, e) + [] == Mentions(e.consequences[..k], c, e);
    CapitalPush(Mentioning(es, c) + Mentions(e.consequences[..k], c, e), e);
    Concat(Mentioning(es, c), Mentions(e.consequences[..k], c, e), [e]);
    hide Mentioning, Capital, CapitalGroup.Add;
  }

  lemma GroupsStep(m: map<string, CapitalGroup>, es: seq<FixtureEconomics>, e: FixtureEconomics, k: nat)
    requires k < |e.consequences| && GroupsPartly(m, es, e, k)
    ensures var name := e.consequences[k].AsStr();
      name in m && GroupsPartly(m[name := m[name].Add(e)], es, e, k + 1)
  {
    var x := e.consequences[k];
    EveryConsequence(x);
    var m' := m[x.AsStr() := m[x.AsStr()].Add(e)];
    forall c | c in ALL_CONSEQUENCES
      ensures m'[c.AsStr()] == Capital(Mentioning(es, c) + Mentions(e.consequences[..k + 1], c, e))
    {
      GroupStep(es, e, k, c);
      if c.AsStr() == x.AsStr() { ConsequenceNamesDiffer(c, x); }
      hide Mentions, Mentioning, Capital, EconomicConsequence.AsStr, CapitalGroup.Add;
    }
  }

  method AddToGroups(m: map<string, CapitalGroup>, ghost es: seq<FixtureEconomics>, e: FixtureEconomics)
    returns (groups: map<string, CapitalGroup>)
    requires GroupsBy(m, es)
    ensures GroupsBy(groups, es + [e])
  {
    groups := m;
    var k := 0;
    assert GroupsPartly(groups, es, e, 0) by {
      forall c | c in ALL_CONSEQUENCES ensures Mentioning(es, c) + Mentions(e.consequences[..0], c, e) == Mentioning(es, c) {
      }
    }
    while k < |e.consequences|
      invariant 0 <= k <= |e.consequences|
      invariant GroupsPartly(groups, es, e, k)
    {
      hide GroupsPartly;
      var name := e.consequences[k].AsStr();
      GroupsStep(groups, es, e, k);
      groups := groups[name := groups[name].Add(e)];
      k := k + 1;
    }
    assert e.consequences[..k] == e.consequences && (es + [e])[..|es|] == es;
  }

  /** The accumulators of the summary loop. */
  datatype Running = Running(
    collateral: u128, debt: u128, affected: CapitalGroup, critical: CapitalGroup, newly: CapitalGroup,
    groups: map<string, CapitalGroup>)

  ghost predicate Tracks(r: Running, es: seq<FixtureEconomics>) {
    && r.collateral == M.SumUsd(Collaterals(es)) && r.debt == M.SumUsd(Debts(es))
    && r.affected == Capital(Select(es, IsAffected))
    && r.critical == Capital(Select(es, IsCriticalRecord))
    && r.newly == Capital(Select(es, IsNewlyLiquidatable))
    && GroupsBy(r.groups, es)
  }

  method AddEntry(r: Running, ghost done: seq<FixtureEconomics>, e: FixtureEconomics) returns (next: Running)
    requires Tracks(r, done)
    ensures Tracks(next, done + [e])
  {
    CapitalGroupsPush(done, e);
    hide Select, Capital, GroupsBy, M.SumUsd, Collaterals, Debts, M.SaturatingAdd, CapitalGroup.Add;
    var groups := AddToGroups(r.groups, done, e);
    next := Running(
      M.SaturatingAdd(r.collateral, e.baseline.collateralValueUsd), M.SaturatingAdd(r.debt, e.baseline.debtValueUsd),
      r.affected, r.critical, r.newly, groups);
    if e.affected {
      next := next.(affected := r.affected.Add(e));
    }
    if e.critical {
      next := next.(critical := r.critical.Add(e));
    }
    if NewlyLiquidatable in e.consequences {
      next := next.(newly := r.newly.Add(e));
    }
  }

  /** Every consequence starts with an empty group. */
  method StartTotals() returns (running: Running)
    ensures Tracks(running, [])
  {
    var none := CapitalGroup(0, 0, 0);
    running := Running(0, 0, none, none, none, map[
      NewlyLiquidatable.AsStr() := none, NoLongerLiquidatable.AsStr() := none, TransactionNowReverts.AsStr() := none,
      TransactionNowSucceeds.AsStr() := none, ValueChanged.AsStr() := none]);
    EmptyGroups(running.groups);
    assert M.SumUsd(Collaterals([])) == 0 && M.SumUsd(Debts([])) == 0;
    assert forall p: FixtureEconomics -> bool :: Capital(Select([], p)) == none;
    hide GroupsBy, Capital, Select, M.SumUsd;
  }

  /** Aggregate the records of a run. The engine panics when the net value does not fit a signed
      128-bit amount; that outcome is `None`. */
  method Summarize(entries: seq<FixtureEconomics>) returns (r: Option<Summary>)
    ensures r.Some? <==> I128_MIN <= M.SumUsd(Collaterals(entries)) as int - M.SumUsd(Debts(entries)) <= I128_MAX
    ensures r.Some? ==> Summarizes(entries, r.value)
  {
    var running := StartTotals();
    var i := 0;
    assert entries[..0] == [];
    while i < |entries|
      invariant 0 <= i <= |entries|
      invariant Tracks(running, entries[..i])
    {
      hide Tracks;
      assert entries[..i + 1] == entries[..i] + [entries[i]];
      running := AddEntry(running, entries[..i], entries[i]);
      i := i + 1;
    }
    assert entries[..i] == entries;
    r := Conclude(running, entries);
  }

  method Conclude(running: Running, entries: seq<FixtureEconomics>) returns (r: Option<Summary>)
    requires Tracks(running, entries)
    ensures r.Some? <==> I128_MIN <= M.SumUsd(Collaterals(entries)) as int - M.SumUsd(Debts(entries)) <= I128_MAX
    ensures r.Some? ==> Summarizes(entries, r.value)
  {
    hide Select, Capital, GroupsBy, M.SumUsd, Collaterals, Debts;
    M.SignedSubIsExact(running.collateral, running.debt, 0);
    var net := M.CheckedSignedSub(running.collateral, running.debt);
    if net == None {
      return None;
    }
    M.SignedSubIsExact(running.collateral, running.debt, net.value);
    r := Some(Summary(|entries|, running.collateral, running.debt, net.value,
                      running.affected, running.critical, running.newly, running.groups));
  }

  /** What a summary says about the records it was made from. */
  ghost predicate Summarizes(entries: seq<FixtureEconomics>, s: Summary) {
    && s.positionsValued == |entries|
    && s.totalCollateral == M.SumUsd(Collaterals(entries))
    && s.totalDebt == M.SumUsd(Debts(entries))
    && s.totalNet == s.totalCollateral as int - s.totalDebt
    && s.affected == Capital(Select(entries, IsAffected))
    && s.critical == Capital(Select(entries, IsCriticalRecord))
    && s.newlyLiquidatable == Capital(Select(entries, IsNewlyLiquidatable))
    && GroupsBy(s.byConsequence, entries)
  }

  lemma EmptyGroups(groups: map<string, CapitalGroup>)
    requires groups == map[
      NewlyLiquidatable.AsStr() := CapitalGroup(0, 0, 0), NoLongerLiquidatable.AsStr() := CapitalGroup(0, 0, 0),
      TransactionNowReverts.AsStr() := CapitalGroup(0, 0, 0), TransactionNowSucceeds.AsStr() := CapitalGroup(0, 0, 0),
      ValueChanged.AsStr() := CapitalGroup(0, 0, 0)]
    ensures GroupsBy(groups, [])
  {
  }

  lemma CapitalGroupsPush(done: seq<FixtureEconomics>, e: FixtureEconomics)
    ensures forall p: FixtureEconomics -> bool ::
      Capital(Select(done + [e], p)) == if p(e) then Capital(Select(done, p)).Add(e) else Capital(Select(done, p))
    ensures M.SumUsd(Collaterals(done + [e])) == M.SaturatingAdd(M.SumUsd(Collaterals(done)), e.baseline.collateralValueUsd)
    ensures M.SumUsd(Debts(done + [e])) == M.SaturatingAdd(M.SumUsd(Debts(done)), e.baseline.debtValueUsd)
  {
    CapitalPush(done, e);
    hide M.SumUsd, M.SaturatingAdd, Collaterals, Debts;
    forall p: FixtureEconomics -> bool
      ensures Capital(Select(done + [e], p)) == if p(e) then Capital(Select(done, p)).Add(e) else Capital(Select(done, p))
    {
      SelectPush(done, e, p);
      CapitalPush(Select(done, p), e);
      hide Select, Capital, CapitalGroup.Add;
      if !p(e) { assert Select(done, p) + [] == Select(done, p); }
    }
  }

  // ---- conservation ---------------------------------------------------------------------------------

  lemma StrictInit(cs: seq<EconomicConsequence>)
    requires cs != [] && StrictlySorted(CompareConsequences, cs)
    ensures StrictlySorted(CompareConsequences, cs[..|cs| - 1])
    ensures cs[|cs| - 1] !in cs[..|cs| - 1]
  {
  }

  lemma {:induction false} MentionsOnce(cs: seq<EconomicConsequence>, c: EconomicConsequence, e: FixtureEconomics)
    requires StrictlySorted(CompareConsequences, cs)
    ensures Mentions(cs, c, e) == if c in cs then [e] else []
  {
    if cs != [] {
      var init, last := cs[..|cs| - 1], cs[|cs| - 1];
      StrictInit(cs);
      MentionsOnce(init, c, e);
      assert cs == init + [last];
      assert Mentions(cs, c, e) == Mentions(init, c, e) + (if last == c then [e] else []);
      hide *;
    }
  }

  /** For coherent records the group of a consequence counts each record once. */
  lemma {:induction false} MentioningIsSelecting(es: seq<FixtureEconomics>, c: EconomicConsequence)
    requires forall e :: e in es ==> Coherent(e)
    ensures Mentioning(es, c) == Select(es, Listing(c))
  {
    if es != [] {
      var last := es[|es| - 1];
      assert Coherent(last);
      MentioningIsSelecting(es[..|es| - 1], c);
      MentionsOnce(last.consequences, c, last);
    }
  }

  lemma {:induction false} AffectedSplits(es: seq<FixtureEconomics>)
    requires forall e :: e in es ==> Coherent(e)
    ensures |Select(es, IsAffected)| == |Select(es, IsCriticalRecord)| + |Select(es, Listing(ValueChanged))|
  {
    if es != [] {
      var last := es[|es| - 1];
      assert Coherent(last);
      AffectedSplits(es[..|es| - 1]);
      AffectedKinds(last);
      hide Coherent;
    }
  }

  lemma AffectedKinds(e: FixtureEconomics)
    requires Coherent(e)
    ensures e.affected <==> e.critical || ValueChanged in e.consequences
    ensures !(e.critical && ValueChanged in e.consequences)
  {
    if e.consequences != [] { assert e.consequences[0] in e.consequences; }
  }

  /** Conservation: every affected position is either critical or value-changed, never both. */
  lemma AffectedIsCriticalPlusValueChanged(fixtures: seq<Fixture>, diffs: seq<StateDiff>, s: Summary)
    requires Summarizes(EvaluateAll(fixtures, diffs), s)
    ensures ValueChanged.AsStr() in s.byConsequence
    ensures s.affected.positions == s.critical.positions + s.byConsequence[ValueChanged.AsStr()].positions
  {
    var es := EvaluateAll(fixtures, diffs);
    RecordsAreCoherent(FixturesById(fixtures), diffs);
    AffectedSplits(es);
    MentioningIsSelecting(es, ValueChanged);
    EveryConsequence(ValueChanged);
    hide Select, Mentioning, Coherent, Records, EvaluateAll, M.SumUsd, Collaterals, Debts, EconomicConsequence.AsStr;
  }

  lemma {:induction false} SumBound(values: seq<nat>, each: nat)
    requires forall i :: 0 <= i < |values| ==> values[i] <= each
    ensures M.TrueSum(values) <= |values| * each
  {
    if values != [] {
      SumBound(values[1..], each);
      assert |values| * each == each + (|values| - 1) * each;
    }
  }

  /** The summary cannot panic on any corpus of at most five hundred million positions. */
  lemma SummaryFits(fixtures: seq<Fixture>, diffs: seq<StateDiff>)
    requires |diffs| <= 500_000_000
    ensures var es := EvaluateAll(fixtures, diffs);
      I128_MIN <= M.SumUsd(Collaterals(es)) as int - M.SumUsd(Debts(es)) <= I128_MAX
  {
    var es := EvaluateAll(fixtures, diffs);
    RecordsBounded(FixturesById(fixtures), diffs);
    assert forall i :: 0 <= i < |es| ==> WithinBounds(es[i]);
    M.SumIsClamped(Collaterals(es));
    M.SumIsClamped(Debts(es));
    SumBound(Collaterals(es), R.COLLATERAL_VALUE_MAX);
    SumBound(Debts(es), U64_MAX);
    R.ProductBound(|es|, R.COLLATERAL_VALUE_MAX, 500_000_000, R.COLLATERAL_VALUE_MAX);
    R.ProductBound(|es|, U64_MAX, 500_000_000, U64_MAX);
    hide M.SumUsd, EvaluateAll, Collaterals, Debts, M.TrueSum;
  }

  ghost predicate WithinBounds(e: FixtureEconomics) {
    e.baseline.collateralValueUsd <= R.COLLATERAL_VALUE_MAX && e.baseline.debtValueUsd <= U64_MAX
  }

  lemma {:induction false} RecordsBounded(byId: map<string, Fixture>, diffs: seq<StateDiff>)
    ensures |Records(byId, diffs)| <= |diffs|
    ensures forall e :: e in Records(byId, diffs) ==> WithinBounds(e)
  {
    if diffs != [] {
      RecordsBounded(byId, diffs[1..]);
      if diffs[0].fixtureId in byId && Evaluate(byId[diffs[0].fixtureId], diffs[0]).Some? {
        RecordBounded(byId[diffs[0].fixtureId], diffs[0]);
      }
      hide Evaluate, WithinBounds;
    }
  }

  lemma RecordBounded(fixture: Fixture, diff: StateDiff)
    requires Evaluate(fixture, diff).Some?
    ensures WithinBounds(Evaluate(fixture, diff).value)
  {
    var data := fixture.Account(POSITION_LABEL).value.account.data;
    R.DebtIsPegged(I.Decode(data).position.debtAmount);
    hide Consequences, StateDiff.IsCritical, I.Decode, R.DebtValue;
  }
}
