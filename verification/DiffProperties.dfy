/** What a comparison means: when it is empty, when it is compute alone, when it is critical,
    and what its narrowed numbers still say (engine/src/diff.rs). */
module DiffProperties {
  import opened Prelude
  import opened Text
  import opened Layout
  import opened Types
  import opened Order
  import opened Diff
  import I = Interpret
  import R = Reference

  // ---- agreement, stated on the results themselves ----------------------------------------------

  /** Bytes agree when they are equal or, under the lending decoder, when both sides hold the same
      layout and differ at most in the version byte, which is not a compared field. */
  ghost predicate DataAgrees(a: Bytes, b: Bytes, decoder: FieldDecoder) {
    a == b
    || (decoder == FixtureLending && I.SameLayout(I.Decode(a), I.Decode(b)) && I.EqualUpToVersion(a, b))
  }

  ghost predicate SnapshotsAgree(a: AccountSnapshot, b: AccountSnapshot, decoder: FieldDecoder) {
    && a.lamports == b.lamports && a.owner == b.owner
    && a.executable == b.executable && a.rentEpoch == b.rentEpoch
    && DataAgrees(a.data, b.data, decoder)
  }

  ghost predicate AccountsAgree(m1: map<string, AccountSnapshot>, m2: map<string, AccountSnapshot>, decoder: FieldDecoder) {
    m1.Keys == m2.Keys && forall name :: name in m1.Keys ==> SnapshotsAgree(m1[name], m2[name], decoder)
  }

  ghost predicate BehaviourAgrees(v1: ExecutionResult, v2: ExecutionResult, decoder: FieldDecoder) {
    v1.success == v2.success && AccountsAgree(v1.accounts, v2.accounts, decoder) && v1.cpiCalls == v2.cpiCalls
  }

  /** Compute is comparable only when both sides report it. */
  ghost predicate ComputeAgrees(v1: ExecutionResult, v2: ExecutionResult) {
    v1.computeUnits.Some? && v2.computeUnits.Some? ==> v1.computeUnits == v2.computeUnits
  }

  // ---- invocation keys ---------------------------------------------------------------------------

  lemma ShapeHasNoSeparator(call: CpiCall)
    ensures '@' !in InvocationShape(call)
  {
    DecimalHasOnlyDigits(call.stackHeight, '@');
    DecimalHasOnlyDigits(call.outerIndex, '@');
    DecimalHasOnlyDigits(call.accountCount, '@');
    DecimalHasOnlyDigits(call.dataLen, '@');
    if call.discriminant.Some? { DecimalHasOnlyDigits(call.discriminant.value, '@'); }
    hide Decimal;
  }

  lemma DiscriminantInjective(a: Option<u8>, b: Option<u8>)
    requires DiscriminantText(a) == DiscriminantText(b)
    ensures a == b
  {
    if a.Some? { DecimalHasOnlyDigits(a.value, '-'); }
    if b.Some? { DecimalHasOnlyDigits(b.value, '-'); }
    if a.Some? && b.Some? {
      DecimalInjective(a.value, b.value);
    } else {
      assert '-' in "-";
    }
  }

  lemma NumberThenRest(m: nat, n: nat, x: string, y: string, c: char)
    requires !IsDigit(c) && Decimal(m) + ([c] + x) == Decimal(n) + ([c] + y)
    ensures m == n && x == y
  {
    DecimalHasOnlyDigits(m, c);
    DecimalHasOnlyDigits(n, c);
    assert Decimal(m) + [c] + x == Decimal(m) + ([c] + x) && Decimal(n) + [c] + y == Decimal(n) + ([c] + y);
    FirstSeparator(Decimal(m), x, Decimal(n), y, c);
    DecimalInjective(m, n);
  }

  /** Two invocations have the same key exactly when they are the same invocation, whatever
      characters the program name holds. */
  lemma InvocationKeyInjective(a: CpiCall, b: CpiCall)
    requires InvocationKey(a) == InvocationKey(b)
    ensures a == b
  {
    ShapeHasNoSeparator(a);
    ShapeHasNoSeparator(b);
    hide Decimal, DiscriminantText, LengthShape;
    LastSeparator(a.program, InvocationShape(a), b.program, InvocationShape(b), '@');
    NumberThenRest(a.stackHeight, b.stackHeight, OuterShape(a), OuterShape(b), '#');
    NumberThenRest(a.outerIndex, b.outerIndex, CountShape(a), CountShape(b), ':');
    NumberThenRest(a.accountCount, b.accountCount, LengthShape(a), LengthShape(b), '/');
    LengthInjective(a, b);
  }

  lemma LengthInjective(a: CpiCall, b: CpiCall)
    requires LengthShape(a) == LengthShape(b)
    ensures a.dataLen == b.dataLen && a.discriminant == b.discriminant
  {
    var x, y := ":" + DiscriminantText(a.discriminant), ":" + DiscriminantText(b.discriminant);
    NumberThenRest(a.dataLen, b.dataLen, x, y, 'b');
    assert x[1..] == DiscriminantText(a.discriminant) && y[1..] == DiscriminantText(b.discriminant);
    DiscriminantInjective(a.discriminant, b.discriminant);
  }

  lemma InvocationKeysInjective(a: seq<CpiCall>, b: seq<CpiCall>)
    ensures InvocationKeys(a) == InvocationKeys(b) <==> a == b
  {
    if InvocationKeys(a) == InvocationKeys(b) {
      assert |a| == |InvocationKeys(a)| == |b|;
      forall i | 0 <= i < |a| ensures a[i] == b[i] {
        assert InvocationKeys(a)[i] == InvocationKeys(b)[i];
        InvocationKeyInjective(a[i], b[i]);
      }
    }
  }

  // ---- emptiness, part by part ---------------------------------------------------------------------

  lemma {:induction false} FieldPartsEmpty(name: string, xs: seq<(string, I.FieldValue)>, ys: seq<(string, I.FieldValue)>)
    requires |xs| == |ys|
    ensures FieldParts(name, xs, ys) == [] <==> forall i :: 0 <= i < |xs| ==> xs[i].1 == ys[i].1
  {
    if xs != [] {
      FieldPartsEmpty(name, xs[1..], ys[1..]);
      assert forall i :: 1 <= i < |xs| ==> xs[i] == xs[1..][i - 1] && ys[i] == ys[1..][i - 1];
      assert FieldPart(name, xs[0].0, xs[0].1, ys[0].1) == [] <==> xs[0].1 == ys[0].1;
      if forall i :: 0 <= i < |xs| ==> xs[i].1 == ys[i].1 {
        assert forall i :: 0 <= i < |xs[1..]| ==> xs[1..][i].1 == ys[1..][i].1;
      }
    }
  }

  lemma LayoutNames(x: I.Decoded, y: I.Decoded)
    requires I.SameLayout(x, y)
    ensures |I.Fields(x)| == |I.Fields(y)|
    ensures forall i :: 0 <= i < |I.Fields(x)| ==> I.Fields(x)[i].0 == I.Fields(y)[i].0
  {
  }

  lemma FieldsSilent(name: string, x: I.Decoded, y: I.Decoded)
    requires I.SameLayout(x, y)
    ensures FieldParts(name, I.Fields(x), I.Fields(y)) == [] <==> I.Fields(x) == I.Fields(y)
  {
    LayoutNames(x, y);
    var xs, ys := I.Fields(x), I.Fields(y);
    FieldPartsEmpty(name, xs, ys);
    hide I.Fields, FieldParts;
    if forall i :: 0 <= i < |xs| ==> xs[i].1 == ys[i].1 {
      forall i | 0 <= i < |xs| ensures xs[i] == ys[i] {
        assert xs[i] == (xs[i].0, xs[i].1);
      }
    }
  }

  lemma DataSilent(name: string, a: Bytes, b: Bytes, decoder: FieldDecoder)
    ensures DataPart(name, a, b, decoder) == [] <==> DataAgrees(a, b, decoder)
  {
    var x, y := Decoded(a, decoder), Decoded(b, decoder);
    if a != b && I.SameLayout(x, y) {
      I.FieldsAndTailDecide(a, b);
      FieldsSilent(name, x, y);
    }
    hide FieldParts, I.Fields, I.EqualUpToVersion, I.Decode;
  }

  lemma MetadataSilent(name: string, a: AccountSnapshot, b: AccountSnapshot)
    ensures MetadataPart(name, a, b) == [] <==>
      a.owner == b.owner && a.executable == b.executable && a.rentEpoch == b.rentEpoch
  {
    if Decimal(a.rentEpoch) == Decimal(b.rentEpoch) { DecimalInjective(a.rentEpoch, b.rentEpoch); }
    assert BoolText(true)[0] == 't' && BoolText(false)[0] == 'f';
    hide Decimal;
  }

  lemma AccountSilent(name: string, a: Option<AccountSnapshot>, b: Option<AccountSnapshot>, decoder: FieldDecoder)
    ensures AccountPart(name, a, b, decoder) == [] <==> a.Some? && b.Some? && SnapshotsAgree(a.value, b.value, decoder)
  {
    if a.Some? && b.Some? {
      MetadataSilent(name, a.value, b.value);
      DataSilent(name, a.value.data, b.value.data, decoder);
    }
    hide MetadataPart, DataPart, DataAgrees, PresenceText;
  }

  ghost predicate Silent(name: string, m1: map<string, AccountSnapshot>, m2: map<string, AccountSnapshot>, decoder: FieldDecoder) {
    AccountPart(name, Lookup(m1, name), Lookup(m2, name), decoder) == []
  }

  lemma SilentMeans(name: string, m1: map<string, AccountSnapshot>, m2: map<string, AccountSnapshot>, decoder: FieldDecoder)
    ensures Silent(name, m1, m2, decoder) <==> name in m1 && name in m2 && SnapshotsAgree(m1[name], m2[name], decoder)
  {
    AccountSilent(name, Lookup(m1, name), Lookup(m2, name), decoder);
    hide AccountPart, SnapshotsAgree;
  }

  lemma {:induction false} AccountsPartEmpty(names: seq<string>, m1: map<string, AccountSnapshot>, m2: map<string, AccountSnapshot>, decoder: FieldDecoder)
    ensures AccountsPart(names, m1, m2, decoder) == [] <==> forall name :: name in names ==> Silent(name, m1, m2, decoder)
  {
    if names != [] {
      var rest := names[1..];
      AccountsPartEmpty(rest, m1, m2, decoder);
      assert AccountsPart(names, m1, m2, decoder) == [] <==> Silent(names[0], m1, m2, decoder) && AccountsPart(rest, m1, m2, decoder) == [];
      hide Silent, AccountsPart;
      assert forall name :: name in names <==> name == names[0] || name in rest;
    }
  }

  lemma SilentEverywhere(m1: map<string, AccountSnapshot>, m2: map<string, AccountSnapshot>, decoder: FieldDecoder)
    ensures (forall name :: name in m1.Keys + m2.Keys ==> Silent(name, m1, m2, decoder)) <==> AccountsAgree(m1, m2, decoder)
  {
    forall name ensures Silent(name, m1, m2, decoder) <==> name in m1 && name in m2 && SnapshotsAgree(m1[name], m2[name], decoder) {
      SilentMeans(name, m1, m2, decoder);
    }
    hide Silent, SnapshotsAgree;
    if forall name :: name in m1.Keys + m2.Keys ==> Silent(name, m1, m2, decoder) {
      forall name ensures name in m1.Keys <==> name in m2.Keys {
        assert name in m1.Keys + m2.Keys ==> Silent(name, m1, m2, decoder);
      }
      assert m1.Keys == m2.Keys;
    }
  }

  lemma AccountsSilent(m1: map<string, AccountSnapshot>, m2: map<string, AccountSnapshot>, decoder: FieldDecoder)
    ensures AccountsPart(AscendingStrings(m1.Keys + m2.Keys), m1, m2, decoder) == [] <==> AccountsAgree(m1, m2, decoder)
  {
    var keys := m1.Keys + m2.Keys;
    AscendingStringsMembers(keys);
    AccountsPartEmpty(AscendingStrings(keys), m1, m2, decoder);
    SilentEverywhere(m1, m2, decoder);
    hide *;
  }

  lemma AscendingStringsMembers(s: set<string>)
    ensures forall x :: x in AscendingStrings(s) <==> x in s
  {
    StringsTotal();
    AscendingFacts(CompareStrings, s);
  }

  lemma BehaviourSilent(v1: ExecutionResult, v2: ExecutionResult, decoder: FieldDecoder)
    ensures BehaviourPart(v1, v2, decoder) == [] <==> BehaviourAgrees(v1, v2, decoder)
  {
    AccountsSilent(v1.accounts, v2.accounts, decoder);
    InvocationKeysInjective(v1.cpiCalls, v2.cpiCalls);
    hide AccountsPart, AccountsAgree, InvocationKeys, AscendingStrings;
  }

  // ---- compute stays on its own axis -----------------------------------------------------------------

  ghost predicate NoCompute(ds: seq<Difference>) {
    forall d :: d in ds ==> !d.ComputeChanged?
  }

  lemma {:induction false} FieldPartsNoCompute(name: string, xs: seq<(string, I.FieldValue)>, ys: seq<(string, I.FieldValue)>)
    ensures NoCompute(FieldParts(name, xs, ys))
  {
    if xs != [] && ys != [] { FieldPartsNoCompute(name, xs[1..], ys[1..]); }
  }

  lemma AccountNoCompute(name: string, a: Option<AccountSnapshot>, b: Option<AccountSnapshot>, decoder: FieldDecoder)
    ensures NoCompute(AccountPart(name, a, b, decoder))
  {
    if a.Some? && b.Some? {
      var x, y := Decoded(a.value.data, decoder), Decoded(b.value.data, decoder);
      FieldPartsNoCompute(name, I.Fields(x), I.Fields(y));
      hide FieldParts, I.Fields, I.Decode;
      assert NoCompute(DataPart(name, a.value.data, b.value.data, decoder));
      hide DataPart;
      assert NoCompute(BalancePart(name, a.value, b.value));
      assert NoCompute(MetadataPart(name, a.value, b.value));
      hide BalancePart, MetadataPart;
    }
  }

  lemma {:induction false} AccountsNoCompute(names: seq<string>, m1: map<string, AccountSnapshot>, m2: map<string, AccountSnapshot>, decoder: FieldDecoder)
    ensures NoCompute(AccountsPart(names, m1, m2, decoder))
  {
    if names != [] {
      AccountNoCompute(names[0], Lookup(m1, names[0]), Lookup(m2, names[0]), decoder);
      AccountsNoCompute(names[1..], m1, m2, decoder);
      hide AccountPart;
    }
  }

  lemma {:induction false} OutcomesAppend(a: seq<Difference>, b: seq<Difference>)
    ensures Outcomes(a + b) == Outcomes(a) + Outcomes(b)
  {
    if a == [] {
      assert a + b == b;
    } else {
      OutcomesAppend(a[1..], b);
      assert (a + b)[0] == a[0] && (a + b)[1..] == a[1..] + b;
      var head := if a[0].IsComputeOnly() then [] else [a[0]];
      Concat(head, Outcomes(a[1..]), Outcomes(b));
      hide Difference.IsComputeOnly;
    }
  }

  lemma {:induction false} OutcomesOfBehaviour(ds: seq<Difference>)
    requires NoCompute(ds)
    ensures Outcomes(ds) == ds
  {
    if ds != [] { OutcomesOfBehaviour(ds[1..]); }
  }

  /** Dropping compute from a comparison leaves exactly its behavioural part. */
  lemma OutcomesAreBehaviour(v1: ExecutionResult, v2: ExecutionResult, decoder: FieldDecoder)
    ensures Outcomes(Differences(v1, v2, decoder)) == BehaviourPart(v1, v2, decoder)
  {
    var names := AscendingStrings(v1.accounts.Keys + v2.accounts.Keys);
    AccountsNoCompute(names, v1.accounts, v2.accounts, decoder);
    BehaviourNoCompute(v1, v2, decoder);
    OutcomesAppend(BehaviourPart(v1, v2, decoder), ComputePart(v1, v2));
    OutcomesOfBehaviour(BehaviourPart(v1, v2, decoder));
    assert Outcomes(ComputePart(v1, v2)) == [];
    hide BehaviourPart, ComputePart;
  }

  lemma BehaviourNoCompute(v1: ExecutionResult, v2: ExecutionResult, decoder: FieldDecoder)
    ensures NoCompute(BehaviourPart(v1, v2, decoder))
  {
    AccountsNoCompute(AscendingStrings(v1.accounts.Keys + v2.accounts.Keys), v1.accounts, v2.accounts, decoder);
    hide AccountsPart, AscendingStrings, InvocationKeys;
  }

  /** Soundness and completeness of the headline: identical exactly when behaviour and compute
      agree, compute-only exactly when behaviour agrees and compute does not. */
  lemma ClassificationDecides(fixture: Fixture, v1: ExecutionResult, v2: ExecutionResult, decoder: FieldDecoder)
    ensures var c := DiffOf(fixture, v1, v2, decoder).Classification();
      && (c == Identical <==> BehaviourAgrees(v1, v2, decoder) && ComputeAgrees(v1, v2))
      && (c == ComputeOnly <==> BehaviourAgrees(v1, v2, decoder) && !ComputeAgrees(v1, v2))
  {
    BehaviourSilent(v1, v2, decoder);
    OutcomesAreBehaviour(v1, v2, decoder);
    assert ComputePart(v1, v2) == [] <==> ComputeAgrees(v1, v2);
    hide BehaviourPart, ComputePart, Outcomes;
  }

  /** With opaque bytes the agreement is plain equality of the compared state. */
  lemma OpaqueAgreementIsEquality(v1: ExecutionResult, v2: ExecutionResult)
    ensures BehaviourAgrees(v1, v2, NoDecoder) <==>
      v1.success == v2.success && v1.accounts == v2.accounts && v1.cpiCalls == v2.cpiCalls
  {
  }

  /** The lending decoder misses exactly a version byte: two results that differ in it alone are
      called identical. */
  lemma VersionByteIsInvisible(fixture: Fixture, v1: ExecutionResult, name: string, version: u8)
    requires name in v1.accounts && I.Decode(v1.accounts[name].data) != I.Opaque
    ensures var a := v1.accounts[name];
      |a.data| >= 2
      && DiffOf(fixture, v1, v1.(accounts := v1.accounts[name := a.(data := a.data[1 := version])]), FixtureLending).Classification() == Identical
  {
    var a := v1.accounts[name];
    var b := a.(data := a.data[1 := version]);
    var v2 := v1.(accounts := v1.accounts[name := b]);
    assert I.EqualUpToVersion(a.data, b.data);
    assert SnapshotsAgree(a, b, FixtureLending);
    hide SnapshotsAgree, I.Decode;
    forall other | other in v1.accounts.Keys ensures SnapshotsAgree(v1.accounts[other], v2.accounts[other], FixtureLending) {
      if other != name { SnapshotAgreesWithItself(v1.accounts[other]); }
    }
    assert v1.accounts.Keys == v2.accounts.Keys;
    ClassificationDecides(fixture, v1, v2, FixtureLending);
  }

  lemma SnapshotAgreesWithItself(a: AccountSnapshot)
    ensures SnapshotsAgree(a, a, FixtureLending)
  {
  }

  // ---- severity ------------------------------------------------------------------------------------

  lemma {:induction false} MaxSeverityIsMax(ds: seq<Difference>)
    ensures MaxSeverity(ds) == None <==> ds == []
    ensures forall d :: d in ds ==> d.Severity().Rank() <= MaxSeverity(ds).value.Rank()
    ensures ds != [] ==> exists d :: d in ds && d.Severity() == MaxSeverity(ds).value
  {
    if ds != [] {
      MaxSeverityIsMax(ds[1..]);
      assert ds[0] in ds;
      var m := MaxSeverity(ds).value;
      if ds[1..] == [] || m == ds[0].Severity() {
        assert ds[0].Severity() == m;
      } else {
        var d :| d in ds[1..] && d.Severity() == MaxSeverity(ds[1..]).value;
        assert d in ds && d.Severity() == m;
      }
    }
  }

  ghost predicate Decisive(d: Difference) {
    d.SuccessChanged? || d.LiquidationStatusChanged?
  }

  lemma {:induction false} OutcomesMembers(ds: seq<Difference>)
    ensures forall d :: d in Outcomes(ds) <==> d in ds && !d.ComputeChanged?
  {
    if ds != [] { OutcomesMembers(ds[1..]); }
  }

  /** The level of a difference, by what changed and for compute by how much. */
  lemma SeverityMeans(d: Difference)
    ensures d.Severity() == Critical <==> d.SuccessChanged? || d.LiquidationStatusChanged?
    ensures d.Severity() == High <==>
      || d.BalanceChanged? || d.CpiChanged?
      || (d.FieldChanged? && d.field in {"health_factor", "collateral_amount", "debt_amount"})
      || (d.ComputeChanged? && (d.pctBps <= -3_000 || d.pctBps >= 3_000))
    ensures d.Severity() == Info <==> d.ComputeChanged? && -500 < d.pctBps < 500
  {
  }

  /** Some difference other than compute has this level. */
  ghost predicate Reaches(ds: seq<Difference>, s: Severity) {
    exists d :: d in ds && !d.ComputeChanged? && d.Severity() == s
  }

  /** The severity of a finding is the worst level among its behavioural differences, if it has any. */
  lemma OutcomeSeverityMeans(diff: StateDiff)
    ensures diff.OutcomeSeverity() == None <==> forall d :: d in diff.differences ==> d.ComputeChanged?
    ensures diff.OutcomeSeverity() == Some(Critical) <==> Reaches(diff.differences, Critical)
    ensures diff.OutcomeSeverity() == Some(High) <==> Reaches(diff.differences, High) && !Reaches(diff.differences, Critical)
    ensures diff.OutcomeSeverity() == Some(Warning) <==>
      Reaches(diff.differences, Warning) && !Reaches(diff.differences, High) && !Reaches(diff.differences, Critical)
    ensures diff.OutcomeSeverity() != Some(Info)
  {
    var ds := diff.OutcomeDifferences();
    OutcomesMembers(diff.differences);
    MaxSeverityIsMax(ds);
    assert forall d :: d in ds ==> d.Severity() != Info;
    hide MaxSeverity, Outcomes, Difference.Severity;
    if ds == [] {
      forall d | d in diff.differences ensures d.ComputeChanged? {
        assert d !in ds;
      }
    } else {
      var worst :| worst in ds && worst.Severity() == MaxSeverity(ds).value;
      assert ds[0] in ds;
      forall d | d in diff.differences && !d.ComputeChanged? ensures d.Severity().Rank() <= worst.Severity().Rank() {
        assert d in ds;
      }
    }
  }

  /** A finding is critical exactly when a transaction outcome or a liquidation status changed;
      no number of lesser differences adds up to one. */
  lemma CriticalIffDecisive(diff: StateDiff)
    ensures diff.IsCritical() <==> exists d :: d in diff.differences && Decisive(d)
  {
    var ds := diff.OutcomeDifferences();
    OutcomesMembers(diff.differences);
    MaxSeverityIsMax(ds);
    hide MaxSeverity, Outcomes;
    forall d: Difference ensures Decisive(d) <==> d.Severity() == Critical {
    }
    forall d | d in diff.differences && Decisive(d) ensures diff.IsCritical() {
      assert d in ds && d.Severity().Rank() == 3;
    }
  }

  lemma {:induction false} OutcomesAboveInfo(ds: seq<Difference>)
    requires NoCompute(ds)
    ensures AboveInfo(ds) == ds
  {
    if ds != [] { OutcomesAboveInfo(ds[1..]); }
  }

  /** The material list drops nothing behavioural, is ordered worst first, and keeps differences of one level
      in the order of the comparison. */
  lemma MaterialIsEveryOutcome(diff: StateDiff)
    ensures multiset(diff.MaterialDifferences()) == multiset(diff.OutcomeDifferences())
    ensures forall i, j :: 0 <= i < j < |diff.MaterialDifferences()| ==>
      diff.MaterialDifferences()[i].Severity().Rank() >= diff.MaterialDifferences()[j].Severity().Rank()
    ensures forall d :: Ties(CompareWorstFirst, d, diff.MaterialDifferences()) == Ties(CompareWorstFirst, d, diff.OutcomeDifferences())
  {
    var ds := diff.OutcomeDifferences();
    OutcomesMembers(diff.differences);
    OutcomesAboveInfo(ds);
    SortKeeps(CompareWorstFirst, ds);
    assert Preorder(CompareWorstFirst);
    SortSorts(CompareWorstFirst, ds);
    forall d ensures Ties(CompareWorstFirst, d, Sort(CompareWorstFirst, ds)) == Ties(CompareWorstFirst, d, ds) {
      SortIsStable(CompareWorstFirst, d, ds);
    }
    hide Sort, AboveInfo, Outcomes, Difference.Severity, Ties;
    var m := diff.MaterialDifferences();
    forall i, j | 0 <= i < j < |m| ensures m[i].Severity().Rank() >= m[j].Severity().Rank() {
      assert CompareWorstFirst(m[i], m[j]) <= 0;
    }
  }

  lemma {:induction false} FirstComputeIs(ds: seq<Difference>)
    ensures FirstCompute(ds) == None <==> forall d :: d in ds ==> !d.ComputeChanged?
    ensures FirstCompute(ds).Some? ==> FirstCompute(ds).value in ds && FirstCompute(ds).value.ComputeChanged?
  {
    if ds != [] && !ds[0].ComputeChanged? {
      FirstComputeIs(ds[1..]);
      assert forall d :: d in ds <==> d == ds[0] || d in ds[1..];
    }
  }

  // ---- narrowed numbers -----------------------------------------------------------------------------

  /** The reported lamport delta is the true one exactly when the move fits 63 bits and a sign. */
  lemma BalanceDeltaIsExactWhen(before: u64, after: u64)
    ensures WrapI64(after as int - before) == after as int - before
      <==> -0x8000_0000_0000_0000 <= after as int - before <= 0x7FFF_FFFF_FFFF_FFFF
  {
  }

  lemma GrowthBps(a: u64, b: u64)
    requires 0 < a <= b
    ensures TrueBps(a, b) >= 0
    ensures TrueBps(a, b) <= 0x7FFF_FFFF <==> (b as int - a) * 10_000 < 0x8000_0000 * a
  {
    var n: nat := (b as int - a) * 10_000;
    R.QuotientIffProduct(n, a, 0x8000_0000);
    R.QuotientIffProduct(n, a, 0);
  }

  lemma DropBps(a: u64, b: u64)
    requires b < a
    ensures -10_000 <= TrueBps(a, b) <= 0
    ensures (b as int - a) * 10_000 < 0x8000_0000 * a
  {
    var n: nat := (a as int - b) * 10_000;
    R.QuotientIffProduct(n, a, 10_001);
    R.QuotientIffProduct(n, a, 0);
    assert TrueBps(a, b) == -(n / a);
  }

  /** The reported percentage is the true one exactly when compute grew by a factor below
      2^31 / 10_000; it never fails for a decrease. */
  lemma PercentageIsExactWhen(a: u64, b: u64)
    requires a > 0
    ensures PctBps(a, b) == TrueBps(a, b) <==> (b as int - a) * 10_000 < 0x8000_0000 * a
  {
    if a <= b { GrowthBps(a, b); } else { DropBps(a, b); }
    NarrowingIsExactWhen(TrueBps(a, b));
    hide TrueBps, WrapI32;
  }

  lemma NarrowingIsExactWhen(x: int)
    ensures WrapI32(x) == x <==> -0x8000_0000 <= x <= 0x7FFF_FFFF
  {
  }

  /** For counts a transaction can reach, growth from at least seven units is always reported exactly. */
  lemma PercentageIsExactInBudget(a: u64, b: u64)
    requires 7 <= a && b <= MAX_TRANSACTION_COMPUTE
    ensures PctBps(a, b) == TrueBps(a, b)
  {
    PercentageIsExactWhen(a, b);
    hide PctBps, TrueBps;
  }

  /** The platform's limit on compute units in one transaction. */
  const MAX_TRANSACTION_COMPUTE: u64 := 1_400_000

  /** The compute delta is reported, and reported exactly, when both counters lie on the same side of
      2^63; otherwise the comparison aborts or reports a delta of the wrong sign. */
  lemma ComputeDeltaIsExactWhen(a: u64, b: u64)
    ensures DeltaFits(a, b) && WrapI64(b as int - a) == b as int - a
      <==> (a < 0x8000_0000_0000_0000 <==> b < 0x8000_0000_0000_0000)
  {
  }

  /** Past that factor a compute explosion can be filed as noise. Only the comparison itself admits such
      counters; no transaction reaches them. */
  lemma ComputeExplosionReadsAsNoise()
    ensures TrueBps(1, 0x1000_0001) == 2_684_354_560_000
    ensures PctBps(1, 0x1000_0001) == 0
    ensures ComputeChanged(1, 0x1000_0001, 0x1000_0000, PctBps(1, 0x1000_0001)).Severity() == Info
  {
  }
}
