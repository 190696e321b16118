/** Regression clusters: findings grouped by trigger, named, summarised and ordered
    (engine/src/cluster.rs). */
module Cluster {
  import opened Prelude
  import opened Text
  import opened Types
  import opened Order
  import opened Diff
  import opened Impact
  import opened Totals
  import I = Interpret
  import R = Reference
  import M = Money

  // ---- numeric ranges ---------------------------------------------------------------------------

  const INFORMATIVE_SPREAD_BPS: int := 2_000

  datatype Metric = Lamports | MicroUsd | HealthMetric | Raw {
    /** Negative values render as zero, except raw ones. */
    function Render(value: i128): string
      requires Lamports? || HealthMetric? ==> value <= U64_MAX
    {
      var magnitude: int := Max(value, 0);
      match this
      case Lamports => I.FormatSol(magnitude) + " SOL"
      case MicroUsd => M.FormatDollars(magnitude)
      case HealthMetric => I.FormatHealth(magnitude)
      case Raw => SignedDecimal(value)
    }
  }

  datatype Condition = Condition(field: string, value: string)

  datatype NumericRange = NumericRange(
    field: string, metric: Metric, min: i128, max: i128, minDisplay: string, maxDisplay: string, informative: bool)

  /** Twenty percent relative spread, by integer basis points. */
  predicate IsInformative(min: i128, max: i128)
    requires min <= max
  {
    var scale := Max(Abs(max), Abs(min));
    min == max || scale == 0 || (max as int - min) * 10_000 / scale <= INFORMATIVE_SPREAD_BPS
  }

  function Smallest(values: seq<i128>): (m: i128)
    requires values != []
    ensures m in values && forall v :: v in values ==> m <= v
  {
    if |values| == 1 then values[0]
    else
      var rest := Smallest(values[1..]);
      assert forall v :: v in values ==> v == values[0] || v in values[1..];
      if values[0] <= rest then values[0] else rest
  }

  function Largest(values: seq<i128>): (m: i128)
    requires values != []
    ensures m in values && forall v :: v in values ==> v <= m
  {
    if |values| == 1 then values[0]
    else
      var rest := Largest(values[1..]);
      assert forall v :: v in values ==> v == values[0] || v in values[1..];
      if values[0] >= rest then values[0] else rest
  }

  /** A range is reported only when every member supplied a value. */
  function RangePart(field: string, metric: Metric, values: seq<i128>, members: nat): seq<NumericRange>
    requires metric.Lamports? || metric.HealthMetric? ==> forall v :: v in values ==> v <= U64_MAX
  {
    if |values| != members || values == [] then []
    else
      var min, max := Smallest(values), Largest(values);
      [NumericRange(field, metric, min, max, metric.Render(min), metric.Render(max), IsInformative(min, max))]
  }

  // ---- keys ---------------------------------------------------------------------------------------

  datatype Transition = Transition(account: string, was: bool, now: bool)

  /** The signature that decides whether two findings belong together. Severity is not part of it. */
  datatype ClusterKey = ClusterKey(
    consequences: seq<EconomicConsequence>, action: string, differenceKinds: seq<string>,
    changedFields: seq<string>, v1Success: bool, v2Success: bool, transitions: seq<Transition>)

  function TransitionOrder(): (Transition, Transition) -> int {
    Then(Via((t: Transition) => t.account, CompareStrings),
         Then(Via((t: Transition) => t.was, CompareBools), Via((t: Transition) => t.now, CompareBools)))
  }

  function ByOutcome(): (ClusterKey, ClusterKey) -> int {
    Then(Via((k: ClusterKey) => k.v1Success, CompareBools), Via((k: ClusterKey) => k.v2Success, CompareBools))
  }

  /** Field by field, in declaration order. */
  function KeyOrder(): (ClusterKey, ClusterKey) -> int {
    Then(Via((k: ClusterKey) => k.consequences, SeqOrder(CompareConsequences)),
    Then(Via((k: ClusterKey) => k.action, CompareStrings),
    Then(Via((k: ClusterKey) => k.differenceKinds, SeqOrder(CompareStrings)),
    Then(Via((k: ClusterKey) => k.changedFields, SeqOrder(CompareStrings)),
    Then(ByOutcome(),
         Via((k: ClusterKey) => k.transitions, SeqOrder(TransitionOrder())))))))
  }

  lemma BoolsTotal()
    ensures TotalOrder(CompareBools)
  {
  }

  lemma TransitionsPreorder()
    ensures Preorder(TransitionOrder())
  {
    StringsTotal();
    BoolsTotal();
    var account := Via((t: Transition) => t.account, CompareStrings);
    var was := Via((t: Transition) => t.was, CompareBools);
    var now := Via((t: Transition) => t.now, CompareBools);
    assert TransitionOrder() == Then(account, Then(was, now));
    hide CompareStrings, CompareBools, Preorder, Then, TransitionOrder;
    ViaPreorder((t: Transition) => t.account, CompareStrings);
    ViaPreorder((t: Transition) => t.was, CompareBools);
    ViaPreorder((t: Transition) => t.now, CompareBools);
    ThenPreorder(was, now);
    ThenPreorder(account, Then(was, now));
  }

  lemma TransitionOrderZero(a: Transition, b: Transition)
    ensures TransitionOrder()(a, b) == 0 <==> a == b
  {
    StringsTotal();
    assert CompareStrings(a.account, b.account) == 0 <==> a.account == b.account;
    hide Preorder, TotalOrder, CompareStrings;
    var account := Via((t: Transition) => t.account, CompareStrings);
    var was := Via((t: Transition) => t.was, CompareBools);
    var now := Via((t: Transition) => t.now, CompareBools);
    assert account(a, b) == CompareStrings(a.account, b.account);
    assert was(a, b) == CompareBools(a.was, b.was);
    assert now(a, b) == CompareBools(a.now, b.now);
    ThenZero(was, now, a, b);
    ThenZero(account, Then(was, now), a, b);
  }

  lemma TransitionsTotal()
    ensures TotalOrder(TransitionOrder())
  {
    TransitionsPreorder();
    forall a: Transition, b: Transition ensures TransitionOrder()(a, b) == 0 <==> a == b {
      TransitionOrderZero(a, b);
    }
    hide TransitionOrder;
  }

  lemma OutcomePreorder()
    ensures Preorder(ByOutcome())
    ensures forall a, b :: ByOutcome()(a, b) == 0 <==> a.v1Success == b.v1Success && a.v2Success == b.v2Success
  {
    BoolsTotal();
    ViaPreorder((k: ClusterKey) => k.v1Success, CompareBools);
    ViaPreorder((k: ClusterKey) => k.v2Success, CompareBools);
    ThenPreorder(Via((k: ClusterKey) => k.v1Success, CompareBools), Via((k: ClusterKey) => k.v2Success, CompareBools));
  }

  lemma KeysPreorder()
    ensures Preorder(KeyOrder())
  {
    StringsTotal();
    ConsequencesTotal();
    TransitionsTotal();
    OutcomePreorder();
    SeqOrderTotal(CompareConsequences);
    SeqOrderTotal(CompareStrings);
    SeqOrderTotal(TransitionOrder());
    hide Preorder, CompareStrings, CompareConsequences, TransitionOrder, SeqOrder, Then, Via;
    var six := Via((k: ClusterKey) => k.transitions, SeqOrder(TransitionOrder()));
    ViaPreorder((k: ClusterKey) => k.consequences, SeqOrder(CompareConsequences));
    ViaPreorder((k: ClusterKey) => k.action, CompareStrings);
    ViaPreorder((k: ClusterKey) => k.differenceKinds, SeqOrder(CompareStrings));
    ViaPreorder((k: ClusterKey) => k.changedFields, SeqOrder(CompareStrings));
    ViaPreorder((k: ClusterKey) => k.transitions, SeqOrder(TransitionOrder()));
    ThenPreorder(ByOutcome(), six);
    var five := Then(ByOutcome(), six);
    ThenPreorder(Via((k: ClusterKey) => k.changedFields, SeqOrder(CompareStrings)), five);
    var four := Then(Via((k: ClusterKey) => k.changedFields, SeqOrder(CompareStrings)), five);
    ThenPreorder(Via((k: ClusterKey) => k.differenceKinds, SeqOrder(CompareStrings)), four);
    var three := Then(Via((k: ClusterKey) => k.differenceKinds, SeqOrder(CompareStrings)), four);
    ThenPreorder(Via((k: ClusterKey) => k.action, CompareStrings), three);
    ThenPreorder(Via((k: ClusterKey) => k.consequences, SeqOrder(CompareConsequences)), Then(Via((k: ClusterKey) => k.action, CompareStrings), three));
  }

  lemma ThenZero<T(!new)>(first: (T, T) -> int, second: (T, T) -> int, a: T, b: T)
    ensures Then(first, second)(a, b) == 0 <==> first(a, b) == 0 && second(a, b) == 0
  {
  }

  lemma ThenNegative<T(!new)>(first: (T, T) -> int, second: (T, T) -> int, a: T, b: T)
    ensures Then(first, second)(a, b) < 0 <==> first(a, b) < 0 || (first(a, b) == 0 && second(a, b) < 0)
  {
  }

  lemma KeysTotal()
    ensures TotalOrder(KeyOrder())
  {
    KeysPreorder();
    forall a: ClusterKey, b: ClusterKey ensures KeyOrder()(a, b) == 0 <==> a == b {
      KeyOrderZero(a, b);
    }
    hide KeyOrder;
  }

  lemma KeyOrderZero(a: ClusterKey, b: ClusterKey)
    ensures KeyOrder()(a, b) == 0 <==> a == b
  {
    StringsTotal();
    ConsequencesTotal();
    TransitionsTotal();
    OutcomePreorder();
    SeqsCompareEqual(CompareConsequences, a.consequences, b.consequences);
    SeqsCompareEqual(CompareStrings, a.differenceKinds, b.differenceKinds);
    SeqsCompareEqual(CompareStrings, a.changedFields, b.changedFields);
    SeqsCompareEqual(TransitionOrder(), a.transitions, b.transitions);
    assert CompareStrings(a.action, b.action) == 0 <==> a.action == b.action;
    hide Preorder, TotalOrder, CompareSeqs, CompareStrings, CompareConsequences, TransitionOrder, ByOutcome;
  }

  function OutcomeKinds(ds: seq<Difference>): seq<string> {
    AscendingStrings(set d | d in ds :: d.Kind())
  }

  function ChangedFields(ds: seq<Difference>): seq<string> {
    AscendingStrings(set d | d in ds && d.FieldChanged? :: d.account + "." + d.field)
  }

  function Transitions(ds: seq<Difference>): seq<Transition> {
    if ds == [] then []
    else
      (if ds[0].LiquidationStatusChanged? then [Transition(ds[0].account, ds[0].was, ds[0].now)] else [])
      + Transitions(ds[1..])
  }

  /** The regression class of one finding; also what the shrinker must preserve. */
  function Signature(fixture: Fixture, diff: StateDiff, economics: FixtureEconomics): ClusterKey {
    var ds := diff.OutcomeDifferences();
    ClusterKey(
      economics.consequences, I.InstructionName(fixture.instruction.data), OutcomeKinds(ds), ChangedFields(ds),
      diff.v1.success, diff.v2.success, Sort(TransitionOrder(), Transitions(ds)))
  }

  // ---- members and their summary ---------------------------------------------------------------------

  datatype Member = Member(fixture: Fixture, diff: StateDiff, economics: FixtureEconomics) {
    function Key(): ClusterKey {
      Signature(fixture, diff, economics)
    }

    function V1Health(): Option<u64> {
      if economics.v1Post.Some? then Some(economics.v1Post.value.healthFactor) else None
    }

    function V2Health(): Option<u64> {
      if economics.v2Post.Some? then Some(economics.v2Post.value.healthFactor) else None
    }
  }

  /** Traits that make a fixture an awkward example. */
  function EdgeProperties(m: Member): int {
    var b := m.economics.baseline;
    (if b.collateralAmount >= 1_000 * 1_000_000_000 then 1 else 0)
    + (if b.collateralAmount < 1_000_000_000 then 1 else 0)
    + (if b.debtAmount == 0 then 1 else 0)
    + (if !m.diff.v1.success then 1 else 0)
  }

  function Magnitude(m: Member): int {
    M.SaturatingAdd(m.economics.baseline.collateralValueUsd, m.economics.baseline.debtValueUsd)
  }

  function BoundaryDistance(m: Member): int {
    match m.V1Health()
    case Some(h) => Abs(h as int - R.HEALTH_SCALE)
    case None => U64_MAX
  }

  function MemberId(m: Member): string {
    m.fixture.id
  }

  function IdOrder(): (Member, Member) -> int {
    Via(MemberId, CompareStrings)
  }

  /** Fewest awkward traits, then smallest, then closest to the boundary, then id. */
  function RankOrder(): (Member, Member) -> int {
    Then(Via(EdgeProperties, CompareInts),
    Then(Via(Magnitude, CompareInts),
    Then(Via(BoundaryDistance, CompareInts), IdOrder())))
  }

  /** The first member no other precedes in rank. */
  function Representative(members: seq<Member>): Member
    requires members != []
  {
    if |members| == 1 then members[0]
    else
      var best := Representative(members[..|members| - 1]);
      if RankOrder()(members[|members| - 1], best) < 0 then members[|members| - 1] else best
  }

  function MapMembers<T>(f: Member -> T, members: seq<Member>): (r: seq<T>)
    ensures |r| == |members| && forall i :: 0 <= i < |members| ==> r[i] == f(members[i])
  {
    seq(|members|, i requires 0 <= i < |members| => f(members[i]))
  }

  /** A categorical condition, stated only when every value is the same. */
  function SharedPart(field: string, values: seq<string>): seq<Condition> {
    if values != [] && forall v :: v in values ==> v == values[0] then [Condition(field, values[0])] else []
  }

  function Presents<T>(options: seq<Option<T>>): seq<T> {
    if options == [] then []
    else (if options[0].Some? then [options[0].value] else []) + Presents(options[1..])
  }

  function OutcomeText(m: Member): string {
    "V1 " + (if m.diff.v1.success then "success" else "revert")
    + " / V2 " + (if m.diff.v2.success then "success" else "revert")
  }

  function LiquidatableText(post: Option<I.PositionEconomics>): Option<string> {
    if post.Some? then Some(BoolText(post.value.liquidatable)) else None
  }

  function Conditions(members: seq<Member>): seq<Condition> {
    SharedPart("action", MapMembers((m: Member) => I.InstructionName(m.fixture.instruction.data), members))
    + SharedPart("collateral_asset", MapMembers((m: Member) => "SOL", members))
    + SharedPart("fractional_collateral",
                 MapMembers((m: Member) => BoolText(m.economics.baseline.collateralAmount % 1_000_000_000 != 0), members))
    + SharedPart("collateral_price",
                 MapMembers((m: Member) => M.FormatDollars(m.economics.baseline.collateralPriceUsd), members))
    + SharedPart("v1_liquidatable", Presents(MapMembers((m: Member) => LiquidatableText(m.economics.v1Post), members)))
    + SharedPart("v2_liquidatable", Presents(MapMembers((m: Member) => LiquidatableText(m.economics.v2Post), members)))
    + SharedPart("transaction_outcome", MapMembers(OutcomeText, members))
  }

  /** Health values, or nothing as soon as one member has none or carries no debt. */
  function Finite(healths: seq<Option<u64>>): (r: seq<i128>)
    ensures forall v :: v in r ==> 0 <= v <= U64_MAX
    ensures r != [] ==> |r| == |healths|
  {
    if exists h :: h in healths && (h == None || h == Some(R.HEALTH_INFINITE)) then []
    else
      assert forall i :: 0 <= i < |healths| ==> healths[i] in healths;
      seq(|healths|, i requires 0 <= i < |healths| => healths[i].value)
  }

  /** Reinterpretation of an unsigned amount as a signed one. */
  function AsSigned(x: u128): i128 {
    if x <= I128_MAX then x else (x as int) - U128_MAX - 1
  }

  function U64s(f: Member -> u64, members: seq<Member>): (r: seq<i128>)
    ensures |r| == |members| && forall i :: 0 <= i < |r| ==> 0 <= r[i] <= U64_MAX && r[i] == f(members[i])
  {
    seq(|members|, i requires 0 <= i < |members| => f(members[i]) as int)
  }

  function Ranges(members: seq<Member>): seq<NumericRange> {
    var n := |members|;
    RangePart("collateral", Lamports, U64s((m: Member) => m.economics.baseline.collateralAmount, members), n)
    + RangePart("debt", MicroUsd, U64s((m: Member) => m.economics.baseline.debtAmount, members), n)
    + RangePart("collateral_value", MicroUsd, MapMembers((m: Member) => AsSigned(m.economics.baseline.collateralValueUsd), members), n)
    + RangePart("health_factor_v1", HealthMetric, Finite(MapMembers((m: Member) => m.V1Health(), members)), n)
    + RangePart("health_factor_v2", HealthMetric, Finite(MapMembers((m: Member) => m.V2Health(), members)), n)
  }

  // ---- clusters -----------------------------------------------------------------------------------------

  datatype MinimizedCase = MinimizedCase(
    derivedFrom: string, collateralLamports: u64, collateralDisplay: string, debtMicroUsd: u64, debtDisplay: string,
    collateralValueUsd: u128, debtValueUsd: u128, v1Health: string, v2Health: string,
    v1Liquidatable: bool, v2Liquidatable: bool, v1Outcome: string, v2Outcome: string, probes: nat, reductions: nat)

  datatype RegressionCluster = RegressionCluster(
    id: string, consequences: seq<EconomicConsequence>, action: string, differenceKinds: seq<string>, critical: bool,
    fixtureIds: seq<string>, collateralValueUsd: u128, debtValueUsd: u128,
    commonConditions: seq<Condition>, ranges: seq<NumericRange>, representativeFixtureId: string,
    minimizedCounterexample: Option<MinimizedCase>)

  function Records(members: seq<Member>): seq<FixtureEconomics> {
    MapMembers((m: Member) => m.economics, members)
  }

  function ClusterFrom(id: string, key: ClusterKey, members: seq<Member>): RegressionCluster
    requires members != []
  {
    RegressionCluster(
      id, key.consequences, key.action, key.differenceKinds,
      exists m :: m in members && m.economics.critical,
      MapMembers(MemberId, members),
      M.SumUsd(Collaterals(Records(members))), M.SumUsd(Debts(Records(members))),
      Conditions(members), Ranges(members), Representative(members).fixture.id, None)
  }

  function Slug(s: string): string {
    if s == "" then "" else [if s[0] == '_' then '-' else s[0]] + Slug(s[1..])
  }

  function JoinSlugs(cs: seq<EconomicConsequence>): string {
    if cs == [] then ""
    else if |cs| == 1 then Slug(cs[0].AsStr())
    else Slug(cs[0].AsStr()) + "+" + JoinSlugs(cs[1..])
  }

  function Base(key: ClusterKey): string {
    JoinSlugs(key.consequences)
  }

  function CountBase(keys: seq<ClusterKey>, base: string): nat {
    if keys == [] then 0
    else CountBase(keys[..|keys| - 1], base) + (if Base(keys[|keys| - 1]) == base then 1 else 0)
  }

  /** The id before numbering: qualified by the action only where the base is shared. */
  function PlainId(keys: seq<ClusterKey>, i: nat): string
    requires i < |keys|
  {
    if CountBase(keys, Base(keys[i])) > 1 then Base(keys[i]) + "--" + Slug(keys[i].action) else Base(keys[i])
  }

  /** How many of the first `n` keys take a plain id. */
  function Taken(keys: seq<ClusterKey>, n: nat, id: string): nat
    requires n <= |keys|
  {
    if n == 0 then 0 else Taken(keys, n - 1, id) + (if PlainId(keys, n - 1) == id then 1 else 0)
  }

  function Numbered(id: string, count: nat): string {
    if count == 1 then id else id + "--" + Decimal(count)
  }

  function ClusterId(keys: seq<ClusterKey>, i: nat): string
    requires i < |keys|
  {
    Numbered(PlainId(keys, i), Taken(keys, i + 1, PlainId(keys, i)))
  }

  /** Critical first, then by falling size, then by id. */
  function ClusterOrder(): (RegressionCluster, RegressionCluster) -> int {
    Then(Reversed(Via((c: RegressionCluster) => c.critical, CompareBools)),
    Then(Reversed(Via((c: RegressionCluster) => |c.fixtureIds|, CompareInts)),
         Via((c: RegressionCluster) => c.id, CompareStrings)))
  }

  // ---- grouping -----------------------------------------------------------------------------------------

  function RecordsById(es: seq<FixtureEconomics>): map<string, FixtureEconomics> {
    if es == [] then map[] else RecordsById(es[..|es| - 1])[es[|es| - 1].fixtureId := es[|es| - 1]]
  }

  function MemberOf(fixtures: map<string, Fixture>, records: map<string, FixtureEconomics>, diff: StateDiff): seq<Member> {
    if diff.fixtureId in fixtures && diff.fixtureId in records && records[diff.fixtureId].consequences != [] then
      [Member(fixtures[diff.fixtureId], diff, records[diff.fixtureId])]
    else []
  }

  /** The findings that enter a cluster, in diff order. */
  function MembersOf(fixtures: map<string, Fixture>, records: map<string, FixtureEconomics>, diffs: seq<StateDiff>): seq<Member> {
    if diffs == [] then []
    else MembersOf(fixtures, records, diffs[..|diffs| - 1]) + MemberOf(fixtures, records, diffs[|diffs| - 1])
  }

  function Group(members: seq<Member>, key: ClusterKey): seq<Member> {
    if members == [] then []
    else Group(members[..|members| - 1], key) + (if members[|members| - 1].Key() == key then [members[|members| - 1]] else [])
  }

  function KeysOf(members: seq<Member>): set<ClusterKey> {
    set m | m in members :: m.Key()
  }

  function SortedKeys(keys: set<ClusterKey>): seq<ClusterKey> {
    KeysTotal();
    Ascending(KeyOrder(), keys)
  }

  function SortedGroup(members: seq<Member>, key: ClusterKey): seq<Member> {
    Sort(IdOrder(), Group(members, key))
  }

  lemma {:induction false} GroupMembers(members: seq<Member>, key: ClusterKey)
    ensures forall m :: m in Group(members, key) <==> m in members && m.Key() == key
  {
    if members != [] {
      var init, last := members[..|members| - 1], members[|members| - 1];
      GroupMembers(init, key);
      hide Member.Key;
      assert forall m :: m in members <==> m in init || m == last;
    }
  }

  lemma SortedGroupMembers(members: seq<Member>, key: ClusterKey)
    ensures forall m :: m in SortedGroup(members, key) <==> m in members && m.Key() == key
    ensures key in KeysOf(members) ==> SortedGroup(members, key) != []
  {
    GroupMembers(members, key);
    SortKeeps(IdOrder(), Group(members, key));
    hide Member.Key, Sort, Group, IdOrder;
    forall m ensures m in SortedGroup(members, key) <==> m in Group(members, key) {
      assert m in multiset(SortedGroup(members, key)) <==> m in multiset(Group(members, key));
    }
    if key in KeysOf(members) {
      var m :| m in members && m.Key() == key;
      assert m in SortedGroup(members, key);
    }
  }

  lemma SortedKeysMembers(keys: set<ClusterKey>)
    ensures forall k :: k in SortedKeys(keys) <==> k in keys
    ensures forall i, j :: 0 <= i < j < |SortedKeys(keys)| ==> SortedKeys(keys)[i] != SortedKeys(keys)[j]
    ensures |SortedKeys(keys)| == |keys|
  {
    KeysTotal();
    AscendingFacts(KeyOrder(), keys);
    hide KeyOrder, Preorder;
  }

  /** The clusters in key order, before the final sort. */
  function ClusterAt(members: seq<Member>, keys: seq<ClusterKey>, i: nat): RegressionCluster
    requires i < |keys| && keys[i] in KeysOf(members)
  {
    SortedGroupMembers(members, keys[i]);
    ClusterFrom(ClusterId(keys, i), keys[i], SortedGroup(members, keys[i]))
  }

  function ClusterList(members: seq<Member>, keys: seq<ClusterKey>): (r: seq<RegressionCluster>)
    requires forall k :: k in keys ==> k in KeysOf(members)
    ensures |r| == |keys| && forall i :: 0 <= i < |keys| ==> r[i] == ClusterAt(members, keys, i)
  {
    seq(|keys|, i requires 0 <= i < |keys| => ClusterAt(members, keys, i))
  }

  function ClustersOf(members: seq<Member>): seq<RegressionCluster> {
    SortedKeysMembers(KeysOf(members));
    Sort(ClusterOrder(), ClusterList(members, SortedKeys(KeysOf(members))))
  }

  function Clusters(fixtures: seq<Fixture>, diffs: seq<StateDiff>, economics: seq<FixtureEconomics>): seq<RegressionCluster> {
    ClustersOf(MembersOf(FixturesById(fixtures), RecordsById(economics), diffs))
  }

  // ---- the build loop -------------------------------------------------------------------------------------

  ghost predicate Grouped(groups: map<ClusterKey, seq<Member>>, members: seq<Member>) {
    groups.Keys == KeysOf(members) && forall k :: k in groups ==> groups[k] == Group(members, k)
  }

  lemma NoKeyNoGroup(members: seq<Member>, key: ClusterKey)
    ensures key !in KeysOf(members) ==> Group(members, key) == []
  {
  }

  lemma GroupedPush(groups: map<ClusterKey, seq<Member>>, members: seq<Member>, m: Member)
    requires Grouped(groups, members)
    ensures var entry := if m.Key() in groups then groups[m.Key()] else [];
      Grouped(groups[m.Key() := entry + [m]], members + [m])
  {
    var key := m.Key();
    var all := members + [m];
    assert all[..|members|] == members;
    var entry := if key in groups then groups[key] else [];
    NoKeyNoGroup(members, key);
    KeysPush(members, m);
    hide Member.Key, KeysOf;
    forall k | k in groups[key := entry + [m]] ensures groups[key := entry + [m]][k] == Group(all, k) {
      if k != key {
        assert Group(all, k) == Group(members, k) + [];
      }
    }
  }

  lemma KeysPush(members: seq<Member>, m: Member)
    ensures KeysOf(members + [m]) == KeysOf(members) + {m.Key()}
  {
  }

  method GroupFindings(fixtures: map<string, Fixture>, records: map<string, FixtureEconomics>, diffs: seq<StateDiff>)
    returns (groups: map<ClusterKey, seq<Member>>)
    ensures Grouped(groups, MembersOf(fixtures, records, diffs))
  {
    groups := map[];
    for i := 0 to |diffs|
      invariant Grouped(groups, MembersOf(fixtures, records, diffs[..i]))
    {
      ghost var before := MembersOf(fixtures, records, diffs[..i]);
      assert diffs[..i + 1][..i] == diffs[..i];
      assert MembersOf(fixtures, records, diffs[..i + 1]) == before + MemberOf(fixtures, records, diffs[i]);
      hide Grouped, MembersOf, Member.Key;
      var diff := diffs[i];
      if diff.fixtureId in fixtures && diff.fixtureId in records && records[diff.fixtureId].consequences != [] {
        var m := Member(fixtures[diff.fixtureId], diff, records[diff.fixtureId]);
        GroupedPush(groups, before, m);
        var key := m.Key();
        groups := groups[key := (if key in groups then groups[key] else []) + [m]];
      } else {
        assert before + [] == before;
      }
    }
    assert diffs[..|diffs|] == diffs;
  }

  method CountBases(keys: seq<ClusterKey>) returns (counts: map<string, nat>)
    ensures Counts(counts, keys)
  {
    counts := map[];
    for i := 0 to |keys|
      invariant Counts(counts, keys[..i])
    {
      assert keys[..i + 1][..i] == keys[..i];
      var base := Base(keys[i]);
      counts := counts[base := (if base in counts then counts[base] else 0) + 1];
    }
    assert keys[..|keys|] == keys;
  }

  /** Group every changed fixture into named, summarised and ordered clusters. */
  method Build(fixtures: seq<Fixture>, diffs: seq<StateDiff>, economics: seq<FixtureEconomics>)
    returns (clusters: seq<RegressionCluster>)
    ensures clusters == Clusters(fixtures, diffs, economics)
  {
    ghost var members := MembersOf(FixturesById(fixtures), RecordsById(economics), diffs);
    var groups := GroupFindings(FixturesById(fixtures), RecordsById(economics), diffs);
    var keys := SortedKeys(groups.Keys);
    SortedKeysMembers(groups.Keys);
    var counts := CountBases(keys);
    clusters := NameClusters(groups, keys, counts, members);
    clusters := Sort(ClusterOrder(), clusters);
    hide ClusterOrder, Sort, ClusterAt, MembersOf, CountBase;
  }

  ghost predicate Counts(counts: map<string, nat>, keys: seq<ClusterKey>) {
    forall base :: (if base in counts then counts[base] else 0) == CountBase(keys, base)
  }

  ghost predicate Uses(used: map<string, nat>, keys: seq<ClusterKey>, n: nat)
    requires n <= |keys|
  {
    forall id :: (if id in used then used[id] else 0) == Taken(keys, n, id)
  }

  method PickId(keys: seq<ClusterKey>, i: nat, counts: map<string, nat>, used: map<string, nat>)
    returns (id: string, next: map<string, nat>)
    requires i < |keys| && Counts(counts, keys) && Uses(used, keys, i)
    ensures id == ClusterId(keys, i) && Uses(next, keys, i + 1)
  {
    hide Slug, Base, CountBase;
    var base := Base(keys[i]);
    var plain := if (if base in counts then counts[base] else 0) > 1 then base + "--" + Slug(keys[i].action) else base;
    assert plain == PlainId(keys, i);
    var count := (if plain in used then used[plain] else 0) + 1;
    next := used[plain := count];
    id := if count == 1 then plain else plain + "--" + Decimal(count);
    TakenStep(keys, i);
    hide PlainId, Taken;
  }

  ghost predicate Listed(clusters: seq<RegressionCluster>, members: seq<Member>, keys: seq<ClusterKey>, n: nat)
    requires n <= |keys| && forall k :: k in keys ==> k in KeysOf(members)
  {
    |clusters| == n && forall j :: 0 <= j < n ==> clusters[j] == ClusterAt(members, keys, j)
  }

  lemma ListedStep(clusters: seq<RegressionCluster>, members: seq<Member>, keys: seq<ClusterKey>, n: nat)
    requires n < |keys| && forall k :: k in keys ==> k in KeysOf(members)
    requires Listed(clusters, members, keys, n)
    ensures Listed(clusters + [ClusterAt(members, keys, n)], members, keys, n + 1)
  {
    hide ClusterAt, KeysOf;
  }

  method NameClusters(groups: map<ClusterKey, seq<Member>>, keys: seq<ClusterKey>, counts: map<string, nat>, ghost members: seq<Member>)
    returns (clusters: seq<RegressionCluster>)
    requires Grouped(groups, members) && forall k :: k in keys ==> k in KeysOf(members)
    requires Counts(counts, keys)
    ensures clusters == ClusterList(members, keys)
  {
    clusters := [];
    var used: map<string, nat> := map[];
    for i := 0 to |keys|
      invariant Listed(clusters, members, keys, i) && Uses(used, keys, i)
    {
      var key := keys[i];
      assert key in groups && groups[key] == Group(members, key);
      SortedGroupMembers(members, key);
      assert ClusterAt(members, keys, i) == ClusterFrom(ClusterId(keys, i), key, SortedGroup(members, key));
      assert SortedGroup(members, key) == Sort(IdOrder(), groups[key]);
      ListedStep(clusters, members, keys, i);
      hide *;
      var id: string;
      id, used := PickId(keys, i, counts, used);
      clusters := clusters + [ClusterFrom(id, key, Sort(IdOrder(), groups[key]))];
    }
    hide ClusterAt, KeysOf, Uses, Grouped;
    assert clusters == ClusterList(members, keys);
  }

  lemma TakenStep(keys: seq<ClusterKey>, i: nat)
    requires i < |keys|
    ensures forall id :: Taken(keys, i + 1, id) == Taken(keys, i, id) + (if PlainId(keys, i) == id then 1 else 0)
  {
  }
}
