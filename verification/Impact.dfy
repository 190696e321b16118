/** Economic meaning of a comparison, and corpus totals (engine/src/impact.rs). */
module Impact {
  import opened Prelude
  import opened Layout
  import opened Types
  import opened Order
  import opened Diff
  import opened DiffProperties
  import I = Interpret
  import R = Reference

  const POSITION_LABEL: string := "position"

  datatype EconomicConsequence =
    | NewlyLiquidatable
    | NoLongerLiquidatable
    | TransactionNowReverts
    | TransactionNowSucceeds
    | ValueChanged
  {
    function Rank(): nat {
      match this
      case NewlyLiquidatable => 0
      case NoLongerLiquidatable => 1
      case TransactionNowReverts => 2
      case TransactionNowSucceeds => 3
      case ValueChanged => 4
    }

    function AsStr(): string {
      match this
      case NewlyLiquidatable => "newly_liquidatable"
      case NoLongerLiquidatable => "no_longer_liquidatable"
      case TransactionNowReverts => "transaction_now_reverts"
      case TransactionNowSucceeds => "transaction_now_succeeds"
      case ValueChanged => "value_changed"
    }
  }

  const ALL_CONSEQUENCES: seq<EconomicConsequence> :=
    [NewlyLiquidatable, NoLongerLiquidatable, TransactionNowReverts, TransactionNowSucceeds, ValueChanged]

  function CompareConsequences(a: EconomicConsequence, b: EconomicConsequence): int {
    a.Rank() - b.Rank()
  }

  lemma ConsequencesTotal()
    ensures TotalOrder(CompareConsequences)
  {
  }

  // ---- consequences of one comparison --------------------------------------------------------

  /** Compute alone never marks capital as affected. */
  predicate IsEconomicallyAffected(ds: seq<Difference>) {
    exists d :: d in ds && !d.IsComputeOnly()
  }

  function ConsequenceOf(d: Difference): seq<EconomicConsequence> {
    match d
    case LiquidationStatusChanged(_, was, now, _, _) =>
      [if !was && now then NewlyLiquidatable else NoLongerLiquidatable]
    case SuccessChanged(v1, v2, _, _) =>
      [if v1 && !v2 then TransactionNowReverts else TransactionNowSucceeds]
    case _ => []
  }

  function Observed(ds: seq<Difference>): seq<EconomicConsequence> {
    if ds == [] then [] else Observed(ds[..|ds| - 1]) + ConsequenceOf(ds[|ds| - 1])
  }

  /** Adjacent repeats removed. */
  function Dedup(s: seq<EconomicConsequence>): seq<EconomicConsequence> {
    if |s| <= 1 then s
    else if s[0] == s[1] then Dedup(s[1..])
    else [s[0]] + Dedup(s[1..])
  }

  function Tidy(s: seq<EconomicConsequence>): seq<EconomicConsequence> {
    Dedup(Sort(CompareConsequences, s))
  }

  function Consequences(ds: seq<Difference>): seq<EconomicConsequence> {
    Tidy(if Observed(ds) == [] && IsEconomicallyAffected(ds) then [ValueChanged] else Observed(ds))
  }

  method CollectConsequences(ds: seq<Difference>) returns (out: seq<EconomicConsequence>)
    ensures out == Consequences(ds)
  {
    out := [];
    for i := 0 to |ds|
      invariant out == Observed(ds[..i])
    {
      assert ds[..i + 1][..i] == ds[..i];
      match ds[i]
      case LiquidationStatusChanged(_, was, now, _, _) =>
        out := out + [if !was && now then NewlyLiquidatable else NoLongerLiquidatable];
      case SuccessChanged(v1, v2, _, _) =>
        out := out + [if v1 && !v2 then TransactionNowReverts else TransactionNowSucceeds];
      case _ =>
    }
    assert ds[..|ds|] == ds;
    if out == [] && IsEconomicallyAffected(ds) {
      out := out + [ValueChanged];
      assert out == [ValueChanged];
    }
    out := Dedup(Sort(CompareConsequences, out));
  }

  lemma {:induction false} DedupKeeps(s: seq<EconomicConsequence>)
    requires Sorted(CompareConsequences, s)
    ensures forall c :: c in Dedup(s) <==> c in s
    ensures StrictlySorted(CompareConsequences, Dedup(s))
    ensures s != [] ==> Dedup(s) != [] && Dedup(s)[0] == s[0]
  {
    if |s| > 1 {
      var t := s[1..];
      assert forall i, j :: 0 <= i < j < |t| ==> t[i] == s[i + 1] && t[j] == s[j + 1];
      DedupKeeps(t);
      assert forall c :: c in s <==> c == s[0] || c in t;
      if s[0] != s[1] {
        forall c | c in Dedup(t) ensures CompareConsequences(s[0], c) < 0 {
          SortedHeads(s, c);
        }
        StrictCons(CompareConsequences, s[0], Dedup(t));
      }
    }
  }

  lemma SortedHeads(s: seq<EconomicConsequence>, c: EconomicConsequence)
    requires |s| > 1 && Sorted(CompareConsequences, s) && c in s[1..] && s[0] != s[1]
    ensures CompareConsequences(s[0], c) < 0
  {
  }

  lemma TidyKeeps(s: seq<EconomicConsequence>)
    ensures forall c :: c in Tidy(s) <==> c in s
    ensures StrictlySorted(CompareConsequences, Tidy(s))
  {
    ConsequencesTotal();
    SortSorts(CompareConsequences, s);
    SortKeeps(CompareConsequences, s);
    DedupKeeps(Sort(CompareConsequences, s));
    forall c ensures c in Sort(CompareConsequences, s) <==> c in s {
      assert c in multiset(Sort(CompareConsequences, s)) <==> c in multiset(s);
    }
  }

  lemma {:induction false} ObservedMembers(ds: seq<Difference>)
    ensures forall c :: c in Observed(ds) <==> exists d :: d in ds && c in ConsequenceOf(d)
  {
    if ds != [] {
      var init, last := ds[..|ds| - 1], ds[|ds| - 1];
      ObservedMembers(init);
      assert forall d :: d in ds <==> d in init || d == last;
      hide ConsequenceOf;
    }
  }

  ghost predicate Crossed(ds: seq<Difference>, down: bool) {
    exists d :: d in ds && d.LiquidationStatusChanged? && (!d.was && d.now) == down
  }

  ghost predicate OutcomeFlipped(ds: seq<Difference>, nowReverts: bool) {
    exists d :: d in ds && d.SuccessChanged? && (d.v1Success && !d.v2Success) == nowReverts
  }

  /** Which consequences a comparison has, one by one; the list is in declaration order, without
      repeats. */
  lemma ConsequencesExactly(ds: seq<Difference>)
    ensures NewlyLiquidatable in Consequences(ds) <==> Crossed(ds, true)
    ensures NoLongerLiquidatable in Consequences(ds) <==> Crossed(ds, false)
    ensures TransactionNowReverts in Consequences(ds) <==> OutcomeFlipped(ds, true)
    ensures TransactionNowSucceeds in Consequences(ds) <==> OutcomeFlipped(ds, false)
    ensures ValueChanged in Consequences(ds) <==>
      IsEconomicallyAffected(ds) && forall d :: d in ds ==> !Decisive(d)
    ensures StrictlySorted(CompareConsequences, Consequences(ds))
  {
    ObservedMembers(ds);
    ObservedEmpty(ds);
    TidyKeeps(if Observed(ds) == [] && IsEconomicallyAffected(ds) then [ValueChanged] else Observed(ds));
    MembersByKind(ds);
    hide Tidy, Observed, ConsequenceOf, IsEconomicallyAffected, Crossed, OutcomeFlipped, StrictlySorted, CompareConsequences;
  }

  lemma MembersByKind(ds: seq<Difference>)
    ensures NewlyLiquidatable in Observed(ds) <==> Crossed(ds, true)
    ensures NoLongerLiquidatable in Observed(ds) <==> Crossed(ds, false)
    ensures TransactionNowReverts in Observed(ds) <==> OutcomeFlipped(ds, true)
    ensures TransactionNowSucceeds in Observed(ds) <==> OutcomeFlipped(ds, false)
    ensures ValueChanged !in Observed(ds)
  {
  }

  lemma {:induction false} ObservedEmpty(ds: seq<Difference>)
    ensures Observed(ds) == [] <==> forall d :: d in ds ==> !Decisive(d)
  {
    if ds != [] {
      var init, last := ds[..|ds| - 1], ds[|ds| - 1];
      ObservedEmpty(init);
      assert ConsequenceOf(last) == [] <==> !Decisive(last);
      hide ConsequenceOf, Decisive;
      assert forall d :: d in ds <==> d in init || d == last;
    }
  }

  /** Critical means a consequence other than a mere change of values; affected means any
      consequence at all. The diff layer and the impact layer agree. */
  lemma LayersAgree(diff: StateDiff)
    ensures var cs := Consequences(diff.differences);
      && (diff.IsCritical() <==> exists c :: c in cs && c != ValueChanged)
      && (IsEconomicallyAffected(diff.differences) <==> cs != [])
      && (ValueChanged in cs ==> cs == [ValueChanged])
  {
    var ds := diff.differences;
    CriticalIffDecisive(diff);
    ConsequencesExactly(ds);
    ObservedEmpty(ds);
    TidyKeeps(if Observed(ds) == [] && IsEconomicallyAffected(ds) then [ValueChanged] else Observed(ds));
    MembersByKind(ds);
    TidySingle();
    hide StateDiff.IsCritical, Tidy, Observed, StrictlySorted, CompareConsequences, Crossed, OutcomeFlipped;
    if Observed(ds) != [] {
      var c := Observed(ds)[0];
      assert c in Consequences(ds) && c != ValueChanged;
      var d :| d in ds && Decisive(d);
      assert !d.IsComputeOnly();
    }
    if Consequences(ds) != [] { assert Consequences(ds)[0] in Consequences(ds); }
  }

  lemma TidySingle()
    ensures Tidy([ValueChanged]) == [ValueChanged] && Tidy([]) == []
  {
  }

  // ---- from bytes to consequence -----------------------------------------------------------------

  /** Some account, present on both sides, holds a position whose cached health crosses 1.0. */
  ghost predicate CachedHealthCrosses(v1: ExecutionResult, v2: ExecutionResult, was: bool, now: bool) {
    exists name :: name in v1.accounts && name in v2.accounts
      && AccountCrosses(v1.accounts[name].data, v2.accounts[name].data, was, now)
  }

  ghost predicate AccountCrosses(a: Bytes, b: Bytes, was: bool, now: bool) {
    && I.Decode(a).DecodedPosition? && I.Decode(b).DecodedPosition?
    && R.IsLiquidatable(I.Decode(a).position.healthFactor) == was
    && R.IsLiquidatable(I.Decode(b).position.healthFactor) == now
  }

  ghost predicate Reports(ds: seq<Difference>, was: bool, now: bool) {
    exists d :: d in ds && d.LiquidationStatusChanged? && d.was == was && d.now == now
  }

  lemma {:induction false} FieldPartsReport(name: string, xs: seq<(string, I.FieldValue)>, ys: seq<(string, I.FieldValue)>, was: bool, now: bool)
    requires |xs| == |ys| && was != now
    ensures Reports(FieldParts(name, xs, ys), was, now) <==>
      exists i :: 0 <= i < |xs| && FieldCrosses(xs[i].1, ys[i].1, was, now)
  {
    if xs != [] {
      FieldPartsReport(name, xs[1..], ys[1..], was, now);
      var head := FieldPart(name, xs[0].0, xs[0].1, ys[0].1);
      FieldReports(name, xs[0].0, xs[0].1, ys[0].1, was, now);
      ReportsAppend(head, FieldParts(name, xs[1..], ys[1..]), was, now);
      hide Reports, FieldPart, FieldCrosses;
      assert forall i :: 1 <= i < |xs| ==> xs[i] == xs[1..][i - 1] && ys[i] == ys[1..][i - 1];
      assert forall i :: 0 <= i < |xs[1..]| ==> xs[1..][i] == xs[i + 1] && ys[1..][i] == ys[i + 1];
    }
  }

  ghost predicate FieldCrosses(x: I.FieldValue, y: I.FieldValue, was: bool, now: bool) {
    x.Health? && y.Health? && R.IsLiquidatable(x.health) == was && R.IsLiquidatable(y.health) == now
  }

  lemma FieldReports(name: string, field: string, x: I.FieldValue, y: I.FieldValue, was: bool, now: bool)
    requires was != now
    ensures Reports(FieldPart(name, field, x, y), was, now) <==> FieldCrosses(x, y, was, now)
  {
  }

  lemma ReportsAppend(a: seq<Difference>, b: seq<Difference>, was: bool, now: bool)
    ensures Reports(a + b, was, now) <==> Reports(a, was, now) || Reports(b, was, now)
  {
  }

  lemma DataReports(name: string, a: Bytes, b: Bytes, was: bool, now: bool)
    requires was != now
    ensures Reports(DataPart(name, a, b, FixtureLending), was, now) <==> AccountCrosses(a, b, was, now)
  {
    var x, y := I.Decode(a), I.Decode(b);
    if a != b && I.SameLayout(x, y) {
      LayoutNames(x, y);
      FieldPartsReport(name, I.Fields(x), I.Fields(y), was, now);
      ReportsAppend(TailPart(name, a, b, I.DecodedLen(x)), FieldParts(name, I.Fields(x), I.Fields(y)), was, now);
      OnlyHealthCrosses(x, y, was, now);
      assert !Reports(TailPart(name, a, b, I.DecodedLen(x)), was, now);
    }
    hide FieldParts, I.Fields, TailPart, I.Decode, FieldCrosses;
  }

  lemma OnlyHealthCrosses(x: I.Decoded, y: I.Decoded, was: bool, now: bool)
    requires I.SameLayout(x, y) && |I.Fields(x)| == |I.Fields(y)|
    ensures (exists i :: 0 <= i < |I.Fields(x)| && FieldCrosses(I.Fields(x)[i].1, I.Fields(y)[i].1, was, now)) <==>
      x.DecodedPosition? && R.IsLiquidatable(x.position.healthFactor) == was && R.IsLiquidatable(y.position.healthFactor) == now
  {
    if x.DecodedPosition? {
      assert I.Fields(x)[7].1 == I.Health(x.position.healthFactor) && I.Fields(y)[7].1 == I.Health(y.position.healthFactor);
    }
    hide I.AddressText;
  }

  lemma AccountReports(name: string, a: Option<AccountSnapshot>, b: Option<AccountSnapshot>, was: bool, now: bool)
    requires was != now
    ensures Reports(AccountPart(name, a, b, FixtureLending), was, now) <==>
      a.Some? && b.Some? && AccountCrosses(a.value.data, b.value.data, was, now)
  {
    if a.Some? && b.Some? {
      DataReports(name, a.value.data, b.value.data, was, now);
      hide DataPart, AccountCrosses;
      ReportsAppend(BalancePart(name, a.value, b.value), MetadataPart(name, a.value, b.value), was, now);
      ReportsAppend(BalancePart(name, a.value, b.value) + MetadataPart(name, a.value, b.value),
                    DataPart(name, a.value.data, b.value.data, FixtureLending), was, now);
      assert !Reports(BalancePart(name, a.value, b.value), was, now);
      assert !Reports(MetadataPart(name, a.value, b.value), was, now);
      hide DataPart, AccountCrosses, MetadataPart, BalancePart, Reports;
    }
  }

  lemma {:induction false} AccountsReport(names: seq<string>, m1: map<string, AccountSnapshot>, m2: map<string, AccountSnapshot>, was: bool, now: bool)
    requires was != now
    ensures Reports(AccountsPart(names, m1, m2, FixtureLending), was, now) <==>
      exists name :: name in names && name in m1 && name in m2 && AccountCrosses(m1[name].data, m2[name].data, was, now)
  {
    if names != [] {
      var rest := names[1..];
      AccountsReport(rest, m1, m2, was, now);
      AccountReports(names[0], Lookup(m1, names[0]), Lookup(m2, names[0]), was, now);
      ReportsAppend(AccountPart(names[0], Lookup(m1, names[0]), Lookup(m2, names[0]), FixtureLending), AccountsPart(rest, m1, m2, FixtureLending), was, now);
      hide AccountPart, AccountCrosses, Reports;
      assert forall name :: name in names <==> name == names[0] || name in rest;
    }
  }

  lemma DifferencesReport(v1: ExecutionResult, v2: ExecutionResult, was: bool, now: bool)
    requires was != now
    ensures Reports(Differences(v1, v2, FixtureLending), was, now) <==> CachedHealthCrosses(v1, v2, was, now)
  {
    var names := AscendingStrings(v1.accounts.Keys + v2.accounts.Keys);
    var accounts := AccountsPart(names, v1.accounts, v2.accounts, FixtureLending);
    AscendingStringsMembers(v1.accounts.Keys + v2.accounts.Keys);
    AccountsReport(names, v1.accounts, v2.accounts, was, now);
    ReportsAppend(OutcomePart(v1, v2), accounts, was, now);
    ReportsAppend(OutcomePart(v1, v2) + accounts, CpiPart(v1, v2), was, now);
    ReportsAppend(BehaviourPart(v1, v2, FixtureLending), ComputePart(v1, v2), was, now);
    assert !Reports(OutcomePart(v1, v2), was, now) && !Reports(CpiPart(v1, v2), was, now) && !Reports(ComputePart(v1, v2), was, now);
    hide AccountsPart, OutcomePart, CpiPart, ComputePart, AscendingStrings, AccountCrosses, Reports;
  }

  /** A position is reported newly (or no longer) liquidatable exactly when some account decodes as
      a position on both sides and its cached health crosses 1.0 in that direction. */
  lemma LiquidationIsReadFromBytes(v1: ExecutionResult, v2: ExecutionResult)
    ensures var cs := Consequences(Differences(v1, v2, FixtureLending));
      && (NewlyLiquidatable in cs <==> CachedHealthCrosses(v1, v2, false, true))
      && (NoLongerLiquidatable in cs <==> CachedHealthCrosses(v1, v2, true, false))
  {
    var ds := Differences(v1, v2, FixtureLending);
    ConsequencesExactly(ds);
    DifferencesReport(v1, v2, false, true);
    DifferencesReport(v1, v2, true, false);
    CrossingsChangeStatus(v1, v2);
    hide Differences, Consequences, CachedHealthCrosses;
  }

  ghost predicate StatusMoves(ds: seq<Difference>) {
    forall d :: d in ds && d.LiquidationStatusChanged? ==> d.was != d.now
  }

  lemma {:induction false} FieldPartsMove(name: string, xs: seq<(string, I.FieldValue)>, ys: seq<(string, I.FieldValue)>)
    ensures StatusMoves(FieldParts(name, xs, ys))
  {
    if xs != [] && ys != [] {
      FieldPartsMove(name, xs[1..], ys[1..]);
      assert StatusMoves(FieldPart(name, xs[0].0, xs[0].1, ys[0].1)) by {
        hide I.FieldValue.Render, I.Explain, I.FormatHealth;
      }
      hide FieldPart;
    }
  }

  lemma {:induction false} AccountsMove(names: seq<string>, m1: map<string, AccountSnapshot>, m2: map<string, AccountSnapshot>)
    ensures StatusMoves(AccountsPart(names, m1, m2, FixtureLending))
  {
    if names != [] {
      AccountsMove(names[1..], m1, m2);
      AccountMoves(names[0], Lookup(m1, names[0]), Lookup(m2, names[0]));
      hide AccountPart;
    }
  }

  lemma AccountMoves(name: string, a: Option<AccountSnapshot>, b: Option<AccountSnapshot>)
    ensures StatusMoves(AccountPart(name, a, b, FixtureLending))
  {
    if a.Some? && b.Some? {
      FieldPartsMove(name, I.Fields(I.Decode(a.value.data)), I.Fields(I.Decode(b.value.data)));
      hide FieldParts, I.Fields, I.Decode;
      assert StatusMoves(DataPart(name, a.value.data, b.value.data, FixtureLending));
    }
  }

  lemma CrossingsChangeStatus(v1: ExecutionResult, v2: ExecutionResult)
    ensures StatusMoves(Differences(v1, v2, FixtureLending))
  {
    AccountsMove(AscendingStrings(v1.accounts.Keys + v2.accounts.Keys), v1.accounts, v2.accounts);
    hide AccountsPart, AscendingStrings, InvocationKeys;
  }
}
