/** What a cluster tells its reader about the findings in it (engine/src/cluster.rs:244-437, 486-547). */
module ClusterMeaning {
  import opened Prelude
  import opened Text
  import opened Types
  import opened Order
  import opened Diff
  import opened Impact
  import opened Totals
  import opened Cluster
  import opened ClusterIds
  import opened ClusterProperties
  import opened ClusterFacts
  import T = ClusterTotals
  import I = Interpret
  import M = Money

  // ---- the best example -----------------------------------------------------------------------------------

  /** How many of four things make a finding an awkward example: a thousand SOL or more, less than one, no
      debt, a first build that already failed. */
  function Awkwardness(m: Member): nat {
    var c := m.economics.baseline.collateralAmount;
    multiset{c >= 1_000_000_000_000, c < 1_000_000_000, m.economics.baseline.debtAmount == 0, !m.diff.v1.success}[true]
  }

  function Worth(m: Member): nat {
    Min(m.economics.baseline.collateralValueUsd + m.economics.baseline.debtValueUsd, U128_MAX)
  }

  /** How far the health under the first build is from 1.0; a finding without one counts as farthest. */
  function Distance(m: Member): nat {
    match m.economics.v1Post
    case None => U64_MAX
    case Some(e) => if e.healthFactor >= 1_000_000 then e.healthFactor - 1_000_000 else 1_000_000 - e.healthFactor
  }

  /** Less awkward, then worth less, then closer to the boundary, then smaller by id. */
  predicate Precedes(a: Member, b: Member) {
    || Awkwardness(a) < Awkwardness(b)
    || (Awkwardness(a) == Awkwardness(b)
        && (|| Worth(a) < Worth(b)
            || (Worth(a) == Worth(b)
                && (|| Distance(a) < Distance(b)
                    || (Distance(a) == Distance(b) && CompareStrings(a.fixture.id, b.fixture.id) < 0)))))
  }

  lemma MeasuresAre(m: Member)
    ensures EdgeProperties(m) == Awkwardness(m) && Magnitude(m) == Worth(m) && BoundaryDistance(m) == Distance(m)
  {
  }

  lemma RankParts(a: Member, b: Member)
    ensures Via(EdgeProperties, CompareInts)(a, b) == EdgeProperties(a) as int - EdgeProperties(b)
    ensures Via(Magnitude, CompareInts)(a, b) == Magnitude(a) as int - Magnitude(b)
    ensures Via(BoundaryDistance, CompareInts)(a, b) == BoundaryDistance(a) as int - BoundaryDistance(b)
    ensures IdOrder()(a, b) == CompareStrings(a.fixture.id, b.fixture.id)
  {
    ViaMeans(EdgeProperties, CompareInts, a, b);
    ViaMeans(Magnitude, CompareInts, a, b);
    ViaMeans(BoundaryDistance, CompareInts, a, b);
    ViaMeans(MemberId, CompareStrings, a, b);
    hide CompareStrings, Via;
  }

  /** The rank in words. */
  lemma RankMeans(a: Member, b: Member)
    ensures RankOrder()(a, b) < 0 <==> Precedes(a, b)
  {
    var one, two := Via(EdgeProperties, CompareInts), Via(Magnitude, CompareInts);
    var three := Via(BoundaryDistance, CompareInts);
    assert RankOrder() == Then(one, Then(two, Then(three, IdOrder())));
    MeasuresAre(a);
    MeasuresAre(b);
    RankParts(a, b);
    hide CompareStrings, EdgeProperties, Magnitude, BoundaryDistance, Awkwardness, Worth, Distance, Via;
    ThenNegative(three, IdOrder(), a, b);
    ThenNegative(two, Then(three, IdOrder()), a, b);
    ThenNegative(one, Then(two, Then(three, IdOrder())), a, b);
    hide IdOrder;
  }

  // ---- conditions -------------------------------------------------------------------------------------------

  /** The text of a condition's field for one finding, if the finding has one. */
  function Trait(m: Member, field: string): Option<string> {
    if field == "action" then Some(I.InstructionName(m.fixture.instruction.data))
    else if field == "collateral_asset" then Some("SOL")
    else if field == "fractional_collateral" then
      Some(if m.economics.baseline.collateralAmount % 1_000_000_000 == 0 then "false" else "true")
    else if field == "collateral_price" then Some(M.FormatDollars(m.economics.baseline.collateralPriceUsd))
    else if field == "v1_liquidatable" then Liquidatable(m.economics.v1Post)
    else if field == "v2_liquidatable" then Liquidatable(m.economics.v2Post)
    else if field == "transaction_outcome" then
      Some("V1 " + (if m.diff.v1.success then "success" else "revert") + " / V2 " + (if m.diff.v2.success then "success" else "revert"))
    else None
  }

  function Liquidatable(post: Option<I.PositionEconomics>): Option<string> {
    if post == None then None else if post.value.liquidatable then Some("true") else Some("false")
  }

  /** Some finding has the text, and no finding has another. */
  ghost predicate Shared(group: seq<Member>, c: Condition) {
    && (exists m :: m in group && Trait(m, c.field) == Some(c.value))
    && (forall m :: m in group ==> Trait(m, c.field) == None || Trait(m, c.field) == Some(c.value))
  }

  lemma {:induction false} PresentMembers<X(!new)>(options: seq<Option<X>>)
    ensures forall x :: x in Presents(options) <==> Some(x) in options
  {
    if options != [] {
      PresentMembers(options[1..]);
      assert forall o :: o in options <==> o == options[0] || o in options[1..];
    }
  }

  /** A field every finding has. */
  lemma AllHave(field: string, f: Member -> string, group: seq<Member>, c: Condition)
    requires forall m :: Trait(m, field) == Some(f(m))
    ensures c in SharedPart(field, MapMembers(f, group)) <==> c.field == field && Shared(group, c)
  {
    var values := MapMembers(f, group);
    ConditionMeansAgreement(field, values, c.value);
    forall v ensures v in values <==> exists m :: m in group && f(m) == v {
      if m :| m in group && f(m) == v {
        var i :| 0 <= i < |group| && group[i] == m;
        assert values[i] == v;
      }
      if v in values {
        var i :| 0 <= i < |values| && values[i] == v;
        assert group[i] in group;
      }
    }
    assert forall m :: m in group ==> f(m) in values;
    hide Trait, MapMembers;
    assert forall x :: x in SharedPart(field, values) ==> x.field == field;
    if values != [] { assert values[0] in values; }
    if c.field == field { assert c == Condition(field, c.value); }
    hide SharedPart;
  }

  /** A field some findings have. */
  lemma SomeHave(field: string, f: Member -> Option<string>, group: seq<Member>, c: Condition)
    requires forall m :: Trait(m, field) == f(m)
    ensures c in SharedPart(field, Presents(MapMembers(f, group))) <==> c.field == field && Shared(group, c)
  {
    var options := MapMembers(f, group);
    var values := Presents(options);
    PresentMembers(options);
    ConditionMeansAgreement(field, values, c.value);
    forall v ensures v in values <==> exists m :: m in group && f(m) == Some(v) {
      if m :| m in group && f(m) == Some(v) {
        var i :| 0 <= i < |group| && group[i] == m;
        assert options[i] == Some(v);
      }
      if v in values {
        var i :| 0 <= i < |options| && options[i] == Some(v);
        assert group[i] in group;
      }
    }
    hide Trait, MapMembers, Presents;
    assert forall x :: x in SharedPart(field, values) ==> x.field == field;
    if values != [] { assert values[0] in values; }
    if c.field == field { assert c == Condition(field, c.value); }
    hide SharedPart;
    assert forall m :: m in group && f(m).Some? ==> f(m).value in values;
  }

  lemma ActionCondition(group: seq<Member>, c: Condition)
    ensures c in SharedPart("action", MapMembers((m: Member) => I.InstructionName(m.fixture.instruction.data), group)) <==>
      c.field == "action" && Shared(group, c)
  {
    AllHave("action", (m: Member) => I.InstructionName(m.fixture.instruction.data), group, c);
    hide Shared, SharedPart, MapMembers;
  }

  lemma AssetCondition(group: seq<Member>, c: Condition)
    ensures c in SharedPart("collateral_asset", MapMembers((m: Member) => "SOL", group)) <==> c.field == "collateral_asset" && Shared(group, c)
  {
    AllHave("collateral_asset", (m: Member) => "SOL", group, c);
    hide Shared, SharedPart, MapMembers;
  }

  lemma FractionCondition(group: seq<Member>, c: Condition)
    ensures c in SharedPart("fractional_collateral",
                            MapMembers((m: Member) => BoolText(m.economics.baseline.collateralAmount % 1_000_000_000 != 0), group)) <==>
      c.field == "fractional_collateral" && Shared(group, c)
  {
    AllHave("fractional_collateral", (m: Member) => BoolText(m.economics.baseline.collateralAmount % 1_000_000_000 != 0), group, c);
    hide Shared, SharedPart, MapMembers;
  }

  lemma PriceCondition(group: seq<Member>, c: Condition)
    ensures c in SharedPart("collateral_price", MapMembers((m: Member) => M.FormatDollars(m.economics.baseline.collateralPriceUsd), group)) <==>
      c.field == "collateral_price" && Shared(group, c)
  {
    AllHave("collateral_price", (m: Member) => M.FormatDollars(m.economics.baseline.collateralPriceUsd), group, c);
    hide Shared, SharedPart, MapMembers;
  }

  lemma LiquidatableConditions(group: seq<Member>, c: Condition)
    ensures c in SharedPart("v1_liquidatable", Presents(MapMembers((m: Member) => LiquidatableText(m.economics.v1Post), group))) <==>
      c.field == "v1_liquidatable" && Shared(group, c)
    ensures c in SharedPart("v2_liquidatable", Presents(MapMembers((m: Member) => LiquidatableText(m.economics.v2Post), group))) <==>
      c.field == "v2_liquidatable" && Shared(group, c)
  {
    SomeHave("v1_liquidatable", (m: Member) => LiquidatableText(m.economics.v1Post), group, c);
    SomeHave("v2_liquidatable", (m: Member) => LiquidatableText(m.economics.v2Post), group, c);
    hide Shared, SharedPart, MapMembers, Presents;
  }

  lemma OutcomeCondition(group: seq<Member>, c: Condition)
    ensures c in SharedPart("transaction_outcome", MapMembers(OutcomeText, group)) <==> c.field == "transaction_outcome" && Shared(group, c)
  {
    AllHave("transaction_outcome", OutcomeText, group, c);
    hide Shared, SharedPart, MapMembers;
  }

  /** A condition is stated exactly when it is one of the seven and the findings share it. */
  lemma ConditionsMean(group: seq<Member>, c: Condition)
    ensures c in Conditions(group) <==> Shared(group, c)
  {
    ActionCondition(group, c);
    AssetCondition(group, c);
    FractionCondition(group, c);
    PriceCondition(group, c);
    LiquidatableConditions(group, c);
    OutcomeCondition(group, c);
    OnlySeven(group, c);
    hide SharedPart, MapMembers, Presents, Shared, M.FormatDollars, I.InstructionName, LiquidatableText, OutcomeText, BoolText;
  }

  predicate IsCondition(field: string) {
    field in {"action", "collateral_asset", "fractional_collateral", "collateral_price", "v1_liquidatable", "v2_liquidatable", "transaction_outcome"}
  }

  lemma OnlySeven(group: seq<Member>, c: Condition)
    ensures Shared(group, c) ==> IsCondition(c.field)
  {
    hide M.FormatDollars, I.InstructionName;
  }

  // ---- ranges -----------------------------------------------------------------------------------------------------

  /** How a value is shown: SOL, dollars or a health, below zero as zero. */
  ghost predicate Shows(metric: Metric, value: int, text: string) {
    match metric
    case Lamports => Max(value, 0) <= U64_MAX && text == I.FormatSol(Max(value, 0)) + " SOL"
    case MicroUsd => Max(value, 0) <= U128_MAX && text == M.FormatDollars(Max(value, 0))
    case HealthMetric => Max(value, 0) <= U64_MAX && text == I.FormatHealth(Max(value, 0))
    case Raw => text == SignedDecimal(value)
  }

  /** Two findings have these values, and all the others lie between. */
  ghost predicate Ends(group: seq<Member>, f: Member -> int, lo: int, hi: int) {
    (exists m :: m in group && f(m) == lo) && (exists m :: m in group && f(m) == hi) && forall m :: m in group ==> lo <= f(m) <= hi
  }

  /** The ends are two findings' values with all the others between them, they are shown as the metric says,
      and the range is called informative when its ends lie within just over a fifth of each other. */
  ghost predicate Spans(r: NumericRange, group: seq<Member>, field: string, metric: Metric, f: Member -> int) {
    && r.field == field && r.metric == metric
    && Ends(group, f, r.min, r.max)
    && Shows(metric, r.min, r.minDisplay) && Shows(metric, r.max, r.maxDisplay)
    && (r.informative <==> r.min == r.max || (r.max as int - r.min) * 10_000 < 2_001 * Max(Abs(r.max), Abs(r.min)))
  }

  function CollateralAmount(m: Member): int { m.economics.baseline.collateralAmount }

  function DebtAmount(m: Member): int { m.economics.baseline.debtAmount }

  /** The collateral value in 128 signed bits. */
  function SignedCollateralValue(m: Member): int {
    var v := m.economics.baseline.collateralValueUsd;
    if v < 0x8000_0000_0000_0000_0000_0000_0000_0000 then v else v as int - 0x1_0000_0000_0000_0000_0000_0000_0000_0000
  }

  function HealthIn(post: Option<I.PositionEconomics>): int {
    if post.Some? then post.value.healthFactor else 0
  }

  function V1HealthOf(m: Member): int { HealthIn(m.economics.v1Post) }

  function V2HealthOf(m: Member): int { HealthIn(m.economics.v2Post) }

  ghost predicate AllFinite(group: seq<Member>, post: Member -> Option<I.PositionEconomics>) {
    forall m :: m in group ==> post(m).Some? && post(m).value.healthFactor != U64_MAX
  }

  /** A range is one of five: the collateral, the debt, the collateral's value, and either health where every
      finding has a finite one. */
  ghost predicate Ranged(group: seq<Member>, r: NumericRange) {
    || Spans(r, group, "collateral", Lamports, CollateralAmount)
    || Spans(r, group, "debt", MicroUsd, DebtAmount)
    || Spans(r, group, "collateral_value", MicroUsd, SignedCollateralValue)
    || (AllFinite(group, (m: Member) => m.economics.v1Post) && Spans(r, group, "health_factor_v1", HealthMetric, V1HealthOf))
    || (AllFinite(group, (m: Member) => m.economics.v2Post) && Spans(r, group, "health_factor_v2", HealthMetric, V2HealthOf))
  }

  lemma RenderShows(metric: Metric, value: i128, text: string)
    requires metric.Lamports? || metric.HealthMetric? ==> value <= U64_MAX
    ensures text == metric.Render(value) <==> Shows(metric, value, text)
  {
    hide I.FormatSol, I.FormatHealth, M.FormatDollars, SignedDecimal;
  }

  lemma ValueListed(values: seq<i128>, group: seq<Member>, f: Member -> int, v: int)
    requires |values| == |group| && forall i :: 0 <= i < |group| ==> values[i] == f(group[i])
    ensures (exists i :: 0 <= i < |values| && values[i] == v) <==> exists m :: m in group && f(m) == v
  {
    if m :| m in group && f(m) == v {
      var i :| 0 <= i < |group| && group[i] == m;
      assert values[i] == v;
    }
    if i :| 0 <= i < |values| && values[i] == v {
      assert group[i] in group;
    }
  }

  lemma EndsAre(values: seq<i128>, group: seq<Member>, f: Member -> int, lo: i128, hi: i128)
    requires |values| == |group| && forall i :: 0 <= i < |group| ==> values[i] == f(group[i])
    ensures (values != [] && lo == Smallest(values) && hi == Largest(values)) <==> Ends(group, f, lo, hi)
  {
    ValueListed(values, group, f, lo);
    ValueListed(values, group, f, hi);
    forall m | m in group ensures f(m) in values {
      var i :| 0 <= i < |group| && group[i] == m;
      assert values[i] == f(m);
    }
    forall i | 0 <= i < |values| ensures group[i] in group && values[i] == f(group[i]) {
    }
    hide Smallest, Largest;
    if values != [] && (forall m :: m in group ==> lo <= f(m) <= hi) {
      assert forall v :: v in values ==> lo <= v <= hi;
    }
  }

  lemma RangeSpans(field: string, metric: Metric, values: seq<i128>, group: seq<Member>, f: Member -> int, r: NumericRange)
    requires metric.Lamports? || metric.HealthMetric? ==> forall v :: v in values ==> v <= U64_MAX
    requires |values| == |group| && forall i :: 0 <= i < |group| ==> values[i] == f(group[i])
    ensures r in RangePart(field, metric, values, |group|) <==> Spans(r, group, field, metric, f)
  {
    EndsAre(values, group, f, r.min, r.max);
    RangeListed(field, metric, values, r);
    if values != [] && r.min == Smallest(values) && r.max == Largest(values) {
      RenderShows(metric, r.min, r.minDisplay);
      RenderShows(metric, r.max, r.maxDisplay);
      InformativeCutoff(r.min, r.max);
    }
    hide Smallest, Largest, Metric.Render, IsInformative, Shows, RangePart, Ends, Max, Abs;
  }

  lemma RangeListed(field: string, metric: Metric, values: seq<i128>, r: NumericRange)
    requires metric.Lamports? || metric.HealthMetric? ==> forall v :: v in values ==> v <= U64_MAX
    ensures r in RangePart(field, metric, values, |values|) <==>
      && values != [] && r.min == Smallest(values) && r.max == Largest(values)
      && r.field == field && r.metric == metric && r.minDisplay == metric.Render(r.min) && r.maxDisplay == metric.Render(r.max)
      && r.informative == IsInformative(r.min, r.max)
  {
    hide Smallest, Largest, Metric.Render, IsInformative;
  }

  lemma SignedIsCast(m: Member)
    ensures AsSigned(m.economics.baseline.collateralValueUsd) == SignedCollateralValue(m)
  {
  }

  lemma FiniteSpans(field: string, group: seq<Member>, post: Member -> Option<I.PositionEconomics>, healths: seq<Option<u64>>,
                    f: Member -> int, r: NumericRange)
    requires |healths| == |group|
    requires forall i :: 0 <= i < |group| ==> healths[i] == if post(group[i]).Some? then Some(post(group[i]).value.healthFactor) else None
    requires forall m :: f(m) == HealthIn(post(m))
    ensures r in RangePart(field, HealthMetric, Finite(healths), |group|) <==> AllFinite(group, post) && Spans(r, group, field, HealthMetric, f)
  {
    hide Spans, RangePart;
    if group == [] {
      assert Finite(healths) == [];
      RangeSpans(field, HealthMetric, [], group, f, r);
    } else {
      FiniteWhen(healths);
      forall m | m in group ensures exists i :: 0 <= i < |group| && group[i] == m {
      }
      assert AllFinite(group, post) <==> forall h :: h in healths ==> h.Some? && h.value != U64_MAX by {
        forall i | 0 <= i < |group| ensures group[i] in group && healths[i] in healths {
        }
      }
      if AllFinite(group, post) {
        forall i | 0 <= i < |group| ensures Finite(healths)[i] == f(group[i]) {
          assert healths[i] in healths;
        }
        RangeSpans(field, HealthMetric, Finite(healths), group, f, r);
      } else {
        assert Finite(healths) == [];
        NoRange(field, |group|);
      }
    }
  }

  lemma NoRange(field: string, n: nat)
    requires n > 0
    ensures RangePart(field, HealthMetric, [], n) == []
  {
  }

  /** Exactly the ranges that hold of the findings are reported. */
  lemma RangesMean(group: seq<Member>, r: NumericRange)
    ensures r in Ranges(group) <==> Ranged(group, r)
  {
    var values := MapMembers((m: Member) => AsSigned(m.economics.baseline.collateralValueUsd), group);
    forall i | 0 <= i < |group| ensures values[i] == SignedCollateralValue(group[i]) {
      SignedIsCast(group[i]);
    }
    RangeSpans("collateral", Lamports, U64s((m: Member) => m.economics.baseline.collateralAmount, group), group, CollateralAmount, r);
    RangeSpans("debt", MicroUsd, U64s((m: Member) => m.economics.baseline.debtAmount, group), group, DebtAmount, r);
    RangeSpans("collateral_value", MicroUsd, values, group, SignedCollateralValue, r);
    FiniteSpans("health_factor_v1", group, (m: Member) => m.economics.v1Post, MapMembers((m: Member) => m.V1Health(), group), V1HealthOf, r);
    FiniteSpans("health_factor_v2", group, (m: Member) => m.economics.v2Post, MapMembers((m: Member) => m.V2Health(), group), V2HealthOf, r);
    hide RangePart, Spans, MapMembers, U64s, Finite, AllFinite, AsSigned;
  }

  // ---- the order of keys ---------------------------------------------------------------------------------------

  /** Consequences in the order of their severity, as they are declared. */
  lemma ConsequencesInOrder()
    ensures CompareConsequences(NewlyLiquidatable, NoLongerLiquidatable) < 0
    ensures CompareConsequences(NoLongerLiquidatable, TransactionNowReverts) < 0
    ensures CompareConsequences(TransactionNowReverts, TransactionNowSucceeds) < 0
    ensures CompareConsequences(TransactionNowSucceeds, ValueChanged) < 0
  {
  }

  /** The first of the numbers that is not zero is negative. */
  predicate FirstIsNegative(xs: seq<int>) {
    xs != [] && (xs[0] < 0 || (xs[0] == 0 && FirstIsNegative(xs[1..])))
  }

  lemma NegativeStep(x: int, rest: seq<int>)
    ensures FirstIsNegative([x] + rest) <==> x < 0 || (x == 0 && FirstIsNegative(rest))
  {
    assert ([x] + rest)[1..] == rest;
  }

  /** Keys compare by their consequences, then the instruction, the sorts of differences, the fields, both
      outcomes, and the liquidation status changes. */
  lemma KeyOrderMeans(a: ClusterKey, b: ClusterKey)
    ensures KeyOrder()(a, b) < 0 <==> FirstIsNegative(
      [CompareSeqs(CompareConsequences, a.consequences, b.consequences)]
      + ([CompareStrings(a.action, b.action)]
      + ([CompareSeqs(CompareStrings, a.differenceKinds, b.differenceKinds)]
      + ([CompareSeqs(CompareStrings, a.changedFields, b.changedFields)]
      + ([CompareBools(a.v1Success, b.v1Success)]
      + ([CompareBools(a.v2Success, b.v2Success)]
      + [CompareSeqs(TransitionOrder(), a.transitions, b.transitions)]))))))
  {
    var x1, x2 := CompareSeqs(CompareConsequences, a.consequences, b.consequences), CompareStrings(a.action, b.action);
    var x3, x4 := CompareSeqs(CompareStrings, a.differenceKinds, b.differenceKinds), CompareSeqs(CompareStrings, a.changedFields, b.changedFields);
    var x5, x6 := CompareBools(a.v1Success, b.v1Success), CompareBools(a.v2Success, b.v2Success);
    var x7 := CompareSeqs(TransitionOrder(), a.transitions, b.transitions);
    hide CompareSeqs, CompareStrings, CompareBools, CompareConsequences, TransitionOrder;
    assert KeyOrder()(a, b) < 0 <==>
      x1 < 0 || (x1 == 0 && (x2 < 0 || (x2 == 0 && (x3 < 0 || (x3 == 0 && (x4 < 0 || (x4 == 0 &&
        (x5 < 0 || (x5 == 0 && (x6 < 0 || (x6 == 0 && x7 < 0)))))))))));
    hide KeyOrder;
    NegativeStep(x7, []);
    assert [x7] + [] == [x7];
    NegativeStep(x6, [x7]);
    NegativeStep(x5, [x6] + [x7]);
    NegativeStep(x4, [x5] + ([x6] + [x7]));
    NegativeStep(x3, [x4] + ([x5] + ([x6] + [x7])));
    NegativeStep(x2, [x3] + ([x4] + ([x5] + ([x6] + [x7]))));
    NegativeStep(x1, [x2] + ([x3] + ([x4] + ([x5] + ([x6] + [x7])))));
    hide FirstIsNegative;
  }

  // ---- names --------------------------------------------------------------------------------------------------------

  /** A consequence as it stands in an id. */
  function IdText(c: EconomicConsequence): string {
    match c
    case NewlyLiquidatable => "newly-liquidatable"
    case NoLongerLiquidatable => "no-longer-liquidatable"
    case TransactionNowReverts => "transaction-now-reverts"
    case TransactionNowSucceeds => "transaction-now-succeeds"
    case ValueChanged => "value-changed"
  }

  lemma SlugIsIdText(c: EconomicConsequence)
    ensures Slug(c.AsStr()) == IdText(c)
  {
    SlugShape(c.AsStr());
    hide Slug;
  }

  function JoinIds(cs: seq<EconomicConsequence>): string {
    if cs == [] then "" else if |cs| == 1 then IdText(cs[0]) else IdText(cs[0]) + "+" + JoinIds(cs[1..])
  }

  lemma {:induction false} JoinsAgree(cs: seq<EconomicConsequence>)
    ensures JoinSlugs(cs) == JoinIds(cs)
  {
    if cs != [] {
      SlugIsIdText(cs[0]);
      JoinsAgree(cs[1..]);
      hide Slug, EconomicConsequence.AsStr, IdText;
    }
  }

  /** The underscores of a name turned into dashes. */
  ghost predicate Dashed(name: string, text: string) {
    |text| == |name| && forall i :: 0 <= i < |name| ==> text[i] == if name[i] == '_' then '-' else name[i]
  }

  ghost predicate SharesBase(keys: seq<ClusterKey>, i: nat)
    requires i < |keys|
  {
    exists j :: 0 <= j < |keys| && j != i && JoinIds(keys[j].consequences) == JoinIds(keys[i].consequences)
  }

  predicate IsOther(keys: seq<ClusterKey>, base: string, i: int, j: int) {
    0 <= j < |keys| && j != i && Base(keys[j]) == base
  }

  /** Some key other than the i-th has that base. */
  ghost predicate Elsewhere(keys: seq<ClusterKey>, base: string, i: int) {
    exists j :: IsOther(keys, base, i, j)
  }

  lemma OtherInit(keys: seq<ClusterKey>, base: string, i: int, j: int)
    requires keys != []
    ensures IsOther(keys[..|keys| - 1], base, i, j) <==> IsOther(keys, base, i, j) && j != |keys| - 1
  {
    hide Base;
  }

  lemma ElsewhereSteps(keys: seq<ClusterKey>, base: string, i: int)
    requires keys != []
    ensures var last := |keys| - 1;
      Elsewhere(keys, base, i) <==> Elsewhere(keys[..last], base, i) || (i != last && Base(keys[last]) == base)
  {
    var last := |keys| - 1;
    assert IsOther(keys, base, i, last) <==> i != last && Base(keys[last]) == base;
    hide IsOther, Base;
    if j :| IsOther(keys[..last], base, i, j) { OtherInit(keys, base, i, j); }
    if j :| IsOther(keys, base, i, j) { OtherInit(keys, base, i, j); }
  }

  lemma {:induction false} NoneCounted(keys: seq<ClusterKey>, base: string, i: int)
    requires !(0 <= i < |keys|)
    ensures CountBase(keys, base) > 0 <==> Elsewhere(keys, base, i)
  {
    hide Base;
    if keys != [] {
      ElsewhereSteps(keys, base, i);
      NoneCounted(keys[..|keys| - 1], base, i);
      hide Elsewhere;
    }
  }

  lemma {:induction false} CountAbove(keys: seq<ClusterKey>, base: string, i: nat)
    requires i < |keys| && Base(keys[i]) == base
    ensures CountBase(keys, base) >= 1 && (CountBase(keys, base) > 1 <==> Elsewhere(keys, base, i))
  {
    hide Base;
    ElsewhereSteps(keys, base, i);
    var init := keys[..|keys| - 1];
    if i < |init| { CountAbove(init, base, i); } else { NoneCounted(init, base, i); }
    hide Elsewhere;
  }

  lemma SharesIs(keys: seq<ClusterKey>, i: nat)
    requires i < |keys|
    ensures SharesBase(keys, i) <==> Elsewhere(keys, Base(keys[i]), i)
  {
    JoinsAgree(keys[i].consequences);
    if j :| 0 <= j < |keys| && j != i && JoinIds(keys[j].consequences) == JoinIds(keys[i].consequences) {
      JoinsAgree(keys[j].consequences);
      assert IsOther(keys, Base(keys[i]), i, j);
    }
    if j :| IsOther(keys, Base(keys[i]), i, j) {
      JoinsAgree(keys[j].consequences);
    }
    hide JoinIds, JoinSlugs;
  }

  /** An id names the consequences. Where another key has the same ones it adds the instruction, and a number
      where that is taken too. */
  lemma IdMeans(keys: seq<ClusterKey>, i: nat)
    requires i < |keys|
    ensures !SharesBase(keys, i) ==> exists n: nat :: n > 0 && ClusterId(keys, i) == Numbered(JoinIds(keys[i].consequences), n)
    ensures SharesBase(keys, i) ==> exists n: nat, action ::
      n > 0 && Dashed(keys[i].action, action) && ClusterId(keys, i) == Numbered(JoinIds(keys[i].consequences) + "--" + action, n)
  {
    JoinsAgree(keys[i].consequences);
    SharesIs(keys, i);
    CountAbove(keys, Base(keys[i]), i);
    SlugShape(keys[i].action);
    TakenGrows(keys, i, i + 1);
    var n := Taken(keys, i + 1, PlainId(keys, i));
    assert ClusterId(keys, i) == Numbered(PlainId(keys, i), n) && n > 0;
    assert Base(keys[i]) == JoinIds(keys[i].consequences);
    hide Base, JoinIds, Slug, Taken, CountBase, Numbered, SharesBase, Elsewhere;
    if SharesBase(keys, i) {
      assert Dashed(keys[i].action, Slug(keys[i].action));
    }
  }

  // ---- the whole cluster ----------------------------------------------------------------------------------------------

  /** The cluster is a fair account of these findings: their ids in order, whether one of them is critical,
      their capital, all conditions and ranges that hold of them and no others, and their best example. */
  ghost predicate Summarises(c: RegressionCluster, group: seq<Member>) {
    && |c.fixtureIds| == |group| && (forall i :: 0 <= i < |group| ==> c.fixtureIds[i] == group[i].fixture.id)
    && Sorted(CompareStrings, c.fixtureIds)
    && (c.critical <==> exists m :: m in group && m.economics.critical)
    && c.collateralValueUsd == Min(T.Total(T.CollateralOf, group), U128_MAX)
    && c.debtValueUsd == Min(T.Total(T.DebtOf, group), U128_MAX)
    && (forall x :: x in c.commonConditions <==> Shared(group, x))
    && (forall r :: r in c.ranges <==> Ranged(group, r))
    && (exists best :: best in group && c.representativeFixtureId == best.fixture.id && forall m :: m in group ==> !Precedes(m, best))
  }

  lemma IdsAscend(group: seq<Member>)
    ensures var sorted := Sort(IdOrder(), group); Sorted(CompareStrings, MapMembers(MemberId, sorted))
  {
    IdPreorder();
    SortSorts(IdOrder(), group);
    var sorted := Sort(IdOrder(), group);
    var ids := MapMembers(MemberId, sorted);
    hide Sort, Preorder, CompareStrings;
    forall i, j | 0 <= i < j < |ids| ensures CompareStrings(ids[i], ids[j]) <= 0 {
      assert IdOrder()(sorted[i], sorted[j]) <= 0;
      ViaMeans(MemberId, CompareStrings, sorted[i], sorted[j]);
    }
  }

  lemma BestExample(group: seq<Member>)
    requires group != []
    ensures Representative(group) in group && forall m :: m in group ==> !Precedes(m, Representative(group))
  {
    RepresentativeIsMember(group);
    RepresentativeIsLeast(group);
    var best := Representative(group);
    RankPreorder();
    forall m | m in group ensures !Precedes(m, best) {
      RankMeans(m, best);
      assert RankOrder()(m, best) < 0 <==> RankOrder()(best, m) > 0;
      hide RankOrder, Precedes, Representative;
    }
  }

  lemma ClusterSummarises(ms: seq<Member>, keys: seq<ClusterKey>, i: nat)
    requires keys == SortedKeys(KeysOf(ms)) && i < |keys| && i < |Unsorted(ms)| && keys[i] in KeysOf(ms)
    ensures Summarises(ClusterAt(ms, keys, i), SortedGroup(ms, keys[i]))
  {
    SortedGroupMembers(ms, keys[i]);
    UnsortedIds(ms, i);
    T.ClusterReadsMembers(ms, i);
    var c, group := ClusterAt(ms, keys, i), SortedGroup(ms, keys[i]);
    IdsAscend(Group(ms, keys[i]));
    ClusterParts(ms, keys, i);
    assert c.collateralValueUsd == Min(T.Total(T.CollateralOf, group), U128_MAX);
    assert c.debtValueUsd == Min(T.Total(T.DebtOf, group), U128_MAX);
    hide *;
    SummarisesBy(c, group);
  }

  lemma SummarisesBy(c: RegressionCluster, group: seq<Member>)
    requires group != [] && c.fixtureIds == MapMembers(MemberId, group) && Sorted(CompareStrings, c.fixtureIds)
    requires c.critical <==> exists m :: m in group && m.economics.critical
    requires c.collateralValueUsd == Min(T.Total(T.CollateralOf, group), U128_MAX)
    requires c.debtValueUsd == Min(T.Total(T.DebtOf, group), U128_MAX)
    requires c.commonConditions == Conditions(group) && c.ranges == Ranges(group)
    requires c.representativeFixtureId == Representative(group).fixture.id
    ensures Summarises(c, group)
  {
    hide Conditions, Ranges, Shared, Ranged, Precedes, Representative, Sorted, MapMembers, T.Total;
    forall x ensures x in Conditions(group) <==> Shared(group, x) {
      ConditionsMean(group, x);
    }
    forall r ensures r in Ranges(group) <==> Ranged(group, r) {
      RangesMean(group, r);
    }
    BestExample(group);
    forall i | 0 <= i < |group| ensures c.fixtureIds[i] == group[i].fixture.id {
      assert c.fixtureIds[i] == MemberId(group[i]);
    }
  }

  lemma ClusterParts(ms: seq<Member>, keys: seq<ClusterKey>, i: nat)
    requires i < |keys| && keys[i] in KeysOf(ms)
    ensures var c, group := ClusterAt(ms, keys, i), SortedGroup(ms, keys[i]);
      && group != [] && group == Sort(IdOrder(), Group(ms, keys[i]))
      && c.fixtureIds == MapMembers(MemberId, group) && c.representativeFixtureId == Representative(group).fixture.id
      && (c.critical <==> exists m :: m in group && m.economics.critical)
      && c.commonConditions == Conditions(group) && c.ranges == Ranges(group)
  {
    SortedGroupMembers(ms, keys[i]);
    hide Member.Key, KeysOf, Conditions, Ranges, Representative, MapMembers, Sort, Group;
  }

  /** Every listed cluster is a fair account of exactly the findings of one key. */
  lemma ClusterReads(ms: seq<Member>, c: RegressionCluster)
    requires c in ClustersOf(ms)
    ensures exists key, group ::
      SpeaksFor(c, ms, key) && (forall m :: m in group <==> m in ms && m.Key() == key) && Summarises(c, group)
  {
    hide *;
    var i := T.ClusterIndex(ms, c);
    var keys := SortedKeys(KeysOf(ms));
    T.UnsortedLength(ms);
    ClusterSummarises(ms, keys, i);
    SortedGroupMembers(ms, keys[i]);
    assert SpeaksFor(c, ms, keys[i]) && Summarises(c, SortedGroup(ms, keys[i]));
  }
}
