/** Structural comparison of two execution results (engine/src/diff.rs). */
module Diff {
  import opened Prelude
  import opened Text
  import opened Layout
  import opened Types
  import opened Order
  import I = Interpret
  import R = Reference
  import H = Hexfmt

  datatype Severity = Info | Warning | High | Critical {
    function Rank(): nat {
      match this case Info => 0 case Warning => 1 case High => 2 case Critical => 3
    }
  }

  const COMPUTE_NOISE_BPS: nat := 500
  const COMPUTE_REGRESSION_BPS: nat := 3_000

  datatype Difference =
    | SuccessChanged(v1Success: bool, v2Success: bool, v1Error: Option<string>, v2Error: Option<string>)
    | LiquidationStatusChanged(account: string, was: bool, now: bool, v1Health: string, v2Health: string)
    | FieldChanged(account: string, field: string, v1: string, v2: string, delta: Option<i64>, consequence: Option<string>)
    | RawDataChanged(account: string, offset: nat, v1: string, v2: string)
    | BalanceChanged(account: string, before: u64, after: u64, balanceDelta: i64)
    | CpiChanged(v1Calls: seq<string>, v2Calls: seq<string>)
    | ComputeChanged(v1Units: u64, v2Units: u64, unitsDelta: i64, pctBps: i32)
  {
    function Severity(): Severity {
      match this
      case SuccessChanged(_, _, _, _) => Critical
      case LiquidationStatusChanged(_, _, _, _, _) => Critical
      case BalanceChanged(_, _, _, _) => High
      case CpiChanged(_, _) => High
      case FieldChanged(_, field, _, _, _, _) =>
        if field == "health_factor" || field == "collateral_amount" || field == "debt_amount" then High else Warning
      case RawDataChanged(_, _, _, _) => Warning
      case ComputeChanged(_, _, _, pct) =>
        if Abs(pct) < COMPUTE_NOISE_BPS then Info
        else if Abs(pct) < COMPUTE_REGRESSION_BPS then Warning
        else High
    }

    predicate IsComputeOnly() {
      ComputeChanged?
    }

    function Kind(): string {
      match this
      case SuccessChanged(_, _, _, _) => "success_changed"
      case LiquidationStatusChanged(_, _, _, _, _) => "liquidation_status_changed"
      case FieldChanged(_, _, _, _, _, _) => "field_changed"
      case RawDataChanged(_, _, _, _) => "raw_data_changed"
      case BalanceChanged(_, _, _, _) => "balance_changed"
      case CpiChanged(_, _) => "cpi_changed"
      case ComputeChanged(_, _, _, _) => "compute_changed"
    }
  }

  datatype FieldDecoder = NoDecoder | FixtureLending

  datatype Classification = Identical | ComputeOnly | Changed

  datatype StateDiff = StateDiff(
    fixtureId: string, category: Category, scenario: string, notes: string,
    differences: seq<Difference>, v1: ExecutionResult, v2: ExecutionResult)
  {
    function OutcomeDifferences(): seq<Difference> {
      Outcomes(differences)
    }

    function OutcomeSeverity(): Option<Severity> {
      MaxSeverity(OutcomeDifferences())
    }

    predicate IsCritical() {
      OutcomeSeverity() == Some(Critical)
    }

    function Classification(): Classification {
      if differences == [] then Identical
      else if OutcomeDifferences() == [] then ComputeOnly
      else Changed
    }

    function ComputeDelta(): Option<Difference> {
      FirstCompute(differences)
    }

    /** Behavioural differences, worst first. */
    function MaterialDifferences(): seq<Difference> {
      Sort(CompareWorstFirst, AboveInfo(OutcomeDifferences()))
    }
  }

  function Outcomes(ds: seq<Difference>): seq<Difference> {
    if ds == [] then [] else (if ds[0].IsComputeOnly() then [] else [ds[0]]) + Outcomes(ds[1..])
  }

  function AboveInfo(ds: seq<Difference>): seq<Difference> {
    if ds == [] then [] else (if ds[0].Severity() == Info then [] else [ds[0]]) + AboveInfo(ds[1..])
  }

  function FirstCompute(ds: seq<Difference>): Option<Difference> {
    if ds == [] then None else if ds[0].ComputeChanged? then Some(ds[0]) else FirstCompute(ds[1..])
  }

  function MaxSeverity(ds: seq<Difference>): Option<Severity> {
    if ds == [] then None
    else
      match MaxSeverity(ds[1..])
      case None => Some(ds[0].Severity())
      case Some(m) => if m.Rank() >= ds[0].Severity().Rank() then Some(m) else Some(ds[0].Severity())
  }

  function CompareWorstFirst(a: Difference, b: Difference): int {
    b.Severity().Rank() - a.Severity().Rank()
  }

  // ---- pieces of a comparison -----------------------------------------------------------------

  function OutcomePart(v1: ExecutionResult, v2: ExecutionResult): seq<Difference> {
    if v1.success != v2.success then [SuccessChanged(v1.success, v2.success, v1.error, v2.error)] else []
  }

  function PresenceText(a: Option<AccountSnapshot>): string {
    match a
    case Some(x) => Decimal(x.lamports) + " lamports"
    case None => "<absent>"
  }

  function Lookup(m: map<string, AccountSnapshot>, name: string): Option<AccountSnapshot> {
    if name in m then Some(m[name]) else None
  }

  function BalancePart(name: string, a: AccountSnapshot, b: AccountSnapshot): seq<Difference> {
    if a.lamports != b.lamports then
      [BalanceChanged(name, a.lamports, b.lamports, WrapI64(b.lamports as int - a.lamports))]
    else []
  }

  function MetadataField(name: string, field: string, x: string, y: string): seq<Difference> {
    if x != y then [FieldChanged(name, field, x, y, None, None)] else []
  }

  function MetadataPart(name: string, a: AccountSnapshot, b: AccountSnapshot): seq<Difference> {
    MetadataField(name, "owner", a.owner, b.owner)
    + MetadataField(name, "executable", BoolText(a.executable), BoolText(b.executable))
    + MetadataField(name, "rent_epoch", Decimal(a.rentEpoch), Decimal(b.rentEpoch))
  }

  /** The first index at which two byte strings part, or the shorter length. */
  function FirstDifferenceOffset(a: Bytes, b: Bytes): (i: nat)
    ensures i <= |a| && i <= |b|
    ensures a[..i] == b[..i]
    ensures i < |a| && i < |b| ==> a[i] != b[i]
  {
    if a == [] || b == [] || a[0] != b[0] then 0
    else
      var i := 1 + FirstDifferenceOffset(a[1..], b[1..]);
      assert a[..i] == [a[0]] + a[1..][..i - 1] && b[..i] == [b[0]] + b[1..][..i - 1];
      i
  }

  function RawData(name: string, a: Bytes, b: Bytes): Difference {
    RawDataChanged(name, FirstDifferenceOffset(a, b), H.HexOf(a), H.HexOf(b))
  }

  function FieldDelta(x: I.FieldValue, y: I.FieldValue): Option<i64> {
    match (x.Numeric(), y.Numeric())
    case (Some(a), Some(b)) =>
      if -0x8000_0000_0000_0000 <= b - a <= 0x7FFF_FFFF_FFFF_FFFF then Some(b - a) else None
    case _ => None
  }

  /** One decoded field: its change, and a threshold crossing where it is a health factor. */
  function FieldPart(name: string, field: string, x: I.FieldValue, y: I.FieldValue): seq<Difference> {
    if x == y then []
    else
      [FieldChanged(name, field, x.Render(), y.Render(), FieldDelta(x, y), I.Explain(field, x, y))]
      + CrossingPart(name, x, y)
  }

  function CrossingPart(name: string, x: I.FieldValue, y: I.FieldValue): seq<Difference> {
    if x.Health? && y.Health? && R.IsLiquidatable(x.health) != R.IsLiquidatable(y.health) then
      [LiquidationStatusChanged(name, R.IsLiquidatable(x.health), R.IsLiquidatable(y.health),
                                I.FormatHealth(x.health), I.FormatHealth(y.health))]
    else []
  }

  function FieldParts(name: string, xs: seq<(string, I.FieldValue)>, ys: seq<(string, I.FieldValue)>): seq<Difference> {
    if xs == [] || ys == [] then []
    else FieldPart(name, xs[0].0, xs[0].1, ys[0].1) + FieldParts(name, xs[1..], ys[1..])
  }

  function Decoded(data: Bytes, decoder: FieldDecoder): I.Decoded {
    if decoder == FixtureLending then I.Decode(data) else I.Opaque
  }

  function TailPart(name: string, a: Bytes, b: Bytes, n: nat): seq<Difference>
    requires n <= |a| && n <= |b|
  {
    if a[n..] != b[n..] then [RawData(name, a, b)] else []
  }

  function DataPart(name: string, a: Bytes, b: Bytes, decoder: FieldDecoder): seq<Difference> {
    if a == b then []
    else
      var x, y := Decoded(a, decoder), Decoded(b, decoder);
      if !I.SameLayout(x, y) then [RawData(name, a, b)]
      else TailPart(name, a, b, I.DecodedLen(x)) + FieldParts(name, I.Fields(x), I.Fields(y))
  }

  function SnapshotPart(name: string, a: AccountSnapshot, b: AccountSnapshot, decoder: FieldDecoder): seq<Difference> {
    BalancePart(name, a, b) + MetadataPart(name, a, b) + DataPart(name, a.data, b.data, decoder)
  }

  function AccountPart(name: string, a: Option<AccountSnapshot>, b: Option<AccountSnapshot>, decoder: FieldDecoder): seq<Difference> {
    match (a, b)
    case (Some(x), Some(y)) => SnapshotPart(name, x, y, decoder)
    case _ => [RawDataChanged(name, 0, PresenceText(a), PresenceText(b))]
  }

  function AccountsPart(names: seq<string>, m1: map<string, AccountSnapshot>, m2: map<string, AccountSnapshot>, decoder: FieldDecoder): seq<Difference> {
    if names == [] then []
    else AccountPart(names[0], Lookup(m1, names[0]), Lookup(m2, names[0]), decoder) + AccountsPart(names[1..], m1, m2, decoder)
  }

  /** The full shape of one invocation, as text. */
  function InvocationKey(call: CpiCall): string {
    call.program + "@" + InvocationShape(call)
  }

  function DiscriminantText(d: Option<u8>): string {
    if d.Some? then Decimal(d.value) else "-"
  }

  /** Depth, top-level index, account count, data length and discriminant, in that order. */
  function InvocationShape(call: CpiCall): string {
    Decimal(call.stackHeight) + ("#" + OuterShape(call))
  }

  function OuterShape(call: CpiCall): string {
    Decimal(call.outerIndex) + (":" + CountShape(call))
  }

  function CountShape(call: CpiCall): string {
    Decimal(call.accountCount) + ("/" + LengthShape(call))
  }

  function LengthShape(call: CpiCall): string {
    Decimal(call.dataLen) + ("b" + (":" + DiscriminantText(call.discriminant)))
  }

  function InvocationKeys(calls: seq<CpiCall>): seq<string> {
    seq(|calls|, i requires 0 <= i < |calls| => InvocationKey(calls[i]))
  }

  function CpiPart(v1: ExecutionResult, v2: ExecutionResult): seq<Difference> {
    if InvocationKeys(v1.cpiCalls) != InvocationKeys(v2.cpiCalls) then
      [CpiChanged(InvocationKeys(v1.cpiCalls), InvocationKeys(v2.cpiCalls))]
    else []
  }

  /** Relative compute change in basis points, truncated toward zero, before narrowing. */
  function TrueBps(a: u64, b: u64): int
    requires a > 0
  {
    TruncDiv((b - a) * 10_000, a)
  }

  function PctBps(a: u64, b: u64): i32 {
    if a == 0 then 10_000 else WrapI32(TrueBps(a, b))
  }

  function ComputePart(v1: ExecutionResult, v2: ExecutionResult): seq<Difference> {
    match (v1.computeUnits, v2.computeUnits)
    case (Some(a), Some(b)) => if a != b then [ComputeChanged(a, b, WrapI64(b as int - a), PctBps(a, b))] else []
    case _ => []
  }

  function BehaviourPart(v1: ExecutionResult, v2: ExecutionResult, decoder: FieldDecoder): seq<Difference> {
    OutcomePart(v1, v2)
    + AccountsPart(AscendingStrings(v1.accounts.Keys + v2.accounts.Keys), v1.accounts, v2.accounts, decoder)
    + CpiPart(v1, v2)
  }

  function Differences(v1: ExecutionResult, v2: ExecutionResult, decoder: FieldDecoder): seq<Difference> {
    BehaviourPart(v1, v2, decoder) + ComputePart(v1, v2)
  }

  /** The compute delta is a difference of two reinterpreted counters; where it overflows, the engine,
      built with overflow checks, aborts and there is no comparison. */
  predicate DeltaFits(a: u64, b: u64) {
    -0x8000_0000_0000_0000 <= WrapI64(b) as int - WrapI64(a) <= 0x7FFF_FFFF_FFFF_FFFF
  }

  predicate Completes(v1: ExecutionResult, v2: ExecutionResult) {
    v1.computeUnits.Some? && v2.computeUnits.Some? ==> DeltaFits(v1.computeUnits.value, v2.computeUnits.value)
  }

  /** The comparison of two results, where it completes. */
  function DiffOf(fixture: Fixture, v1: ExecutionResult, v2: ExecutionResult, decoder: FieldDecoder): StateDiff {
    StateDiff(fixture.id, fixture.category, fixture.scenario, fixture.notes, Differences(v1, v2, decoder), v1, v2)
  }

  // ---- the comparison itself ------------------------------------------------------------------

  lemma Concat<T>(a: seq<T>, b: seq<T>, c: seq<T>)
    ensures a + b + c == a + (b + c)
  {
  }

  method CompareField(name: string, field: string, x: I.FieldValue, y: I.FieldValue, soFar: seq<Difference>)
    returns (differences: seq<Difference>)
    ensures differences == soFar + FieldPart(name, field, x, y)
  {
    differences := soFar;
    if x == y {
      return;
    }
    differences := differences + [FieldChanged(name, field, x.Render(), y.Render(), FieldDelta(x, y), I.Explain(field, x, y))];
    if x.Health? && y.Health? {
      var was, now := R.IsLiquidatable(x.health), R.IsLiquidatable(y.health);
      if was != now {
        differences := differences
          + [LiquidationStatusChanged(name, was, now, I.FormatHealth(x.health), I.FormatHealth(y.health))];
      }
    }
  }

  lemma FieldPartsAt(name: string, xs: seq<(string, I.FieldValue)>, ys: seq<(string, I.FieldValue)>, i: nat)
    requires i < |xs| && i < |ys|
    ensures FieldParts(name, xs[i..], ys[i..])
         == FieldPart(name, xs[i].0, xs[i].1, ys[i].1) + FieldParts(name, xs[i + 1..], ys[i + 1..])
  {
  }

  method CompareFields(name: string, xs: seq<(string, I.FieldValue)>, ys: seq<(string, I.FieldValue)>, soFar: seq<Difference>)
    returns (differences: seq<Difference>)
    ensures differences == soFar + FieldParts(name, xs, ys)
  {
    differences := soFar;
    var i := 0;
    while i < |xs| && i < |ys|
      invariant 0 <= i <= |xs| && i <= |ys|
      invariant differences + FieldParts(name, xs[i..], ys[i..]) == soFar + FieldParts(name, xs, ys)
    {
      FieldPartsAt(name, xs, ys, i);
      Concat(differences, FieldPart(name, xs[i].0, xs[i].1, ys[i].1), FieldParts(name, xs[i + 1..], ys[i + 1..]));
      hide *;
      differences := CompareField(name, xs[i].0, xs[i].1, ys[i].1, differences);
      i := i + 1;
    }
  }

  method CompareMetadata(name: string, a: AccountSnapshot, b: AccountSnapshot, soFar: seq<Difference>)
    returns (differences: seq<Difference>)
    ensures differences == soFar + MetadataPart(name, a, b)
  {
    differences := soFar;
    var metadata := [ ("owner", a.owner, b.owner),
                      ("executable", BoolText(a.executable), BoolText(b.executable)),
                      ("rent_epoch", Decimal(a.rentEpoch), Decimal(b.rentEpoch)) ];
    var k := 0;
    while k < |metadata|
      invariant 0 <= k <= |metadata|
      invariant differences == soFar + MetadataList(name, metadata[..k])
    {
      assert metadata[..k + 1][..k] == metadata[..k];
      var (field, x, y) := metadata[k];
      if x != y {
        differences := differences + [FieldChanged(name, field, x, y, None, None)];
      }
      k := k + 1;
    }
    MetadataListIsPart(name, a, b, metadata);
    assert metadata[..k] == metadata;
  }

  ghost function MetadataList(name: string, fields: seq<(string, string, string)>): seq<Difference> {
    if fields == [] then []
    else
      var (field, x, y) := fields[|fields| - 1];
      MetadataList(name, fields[..|fields| - 1]) + MetadataField(name, field, x, y)
  }

  lemma MetadataListIsPart(name: string, a: AccountSnapshot, b: AccountSnapshot, fields: seq<(string, string, string)>)
    requires fields == [ ("owner", a.owner, b.owner),
                         ("executable", BoolText(a.executable), BoolText(b.executable)),
                         ("rent_epoch", Decimal(a.rentEpoch), Decimal(b.rentEpoch)) ]
    ensures MetadataList(name, fields) == MetadataPart(name, a, b)
  {
    hide MetadataField, Decimal, BoolText;
    var one, two := fields[..1], fields[..2];
    assert fields[..2] == two && two[..1] == one && one[..0] == [];
    assert MetadataList(name, one) == MetadataField(name, fields[0].0, fields[0].1, fields[0].2);
  }

  method CompareData(name: string, a: Bytes, b: Bytes, decoder: FieldDecoder, soFar: seq<Difference>)
    returns (differences: seq<Difference>)
    ensures differences == soFar + DataPart(name, a, b, decoder)
  {
    differences := soFar;
    if a == b {
      return;
    }
    var x, y := Decoded(a, decoder), Decoded(b, decoder);
    if !I.SameLayout(x, y) {
      differences := differences + [RawData(name, a, b)];
      return;
    }
    var n := I.DecodedLen(x);
    if a[n..] != b[n..] {
      differences := differences + [RawData(name, a, b)];
    }
    assert differences == soFar + TailPart(name, a, b, n);
    assert DataPart(name, a, b, decoder) == TailPart(name, a, b, n) + FieldParts(name, I.Fields(x), I.Fields(y));
    Concat(soFar, TailPart(name, a, b, n), FieldParts(name, I.Fields(x), I.Fields(y)));
    hide *;
    differences := CompareFields(name, I.Fields(x), I.Fields(y), differences);
  }

  method CompareSnapshots(name: string, a: AccountSnapshot, b: AccountSnapshot, decoder: FieldDecoder, soFar: seq<Difference>)
    returns (differences: seq<Difference>)
    ensures differences == soFar + SnapshotPart(name, a, b, decoder)
  {
    differences := soFar;
    if a.lamports != b.lamports {
      differences := differences + [BalanceChanged(name, a.lamports, b.lamports, WrapI64(b.lamports as int - a.lamports))];
    }
    assert differences == soFar + BalancePart(name, a, b);
    Concat(soFar, BalancePart(name, a, b), MetadataPart(name, a, b));
    Concat(soFar, BalancePart(name, a, b) + MetadataPart(name, a, b), DataPart(name, a.data, b.data, decoder));
    assert SnapshotPart(name, a, b, decoder)
        == BalancePart(name, a, b) + MetadataPart(name, a, b) + DataPart(name, a.data, b.data, decoder);
    hide *;
    differences := CompareMetadata(name, a, b, differences);
    differences := CompareData(name, a.data, b.data, decoder, differences);
  }

  method CompareAccount(name: string, a: Option<AccountSnapshot>, b: Option<AccountSnapshot>, decoder: FieldDecoder, soFar: seq<Difference>)
    returns (differences: seq<Difference>)
    ensures differences == soFar + AccountPart(name, a, b, decoder)
  {
    if a.Some? && b.Some? {
      differences := CompareSnapshots(name, a.value, b.value, decoder, soFar);
    } else {
      differences := soFar + [RawDataChanged(name, 0, PresenceText(a), PresenceText(b))];
    }
  }

  lemma AscendingStringsStep(s: set<string>, x: string)
    requires IsLeast(CompareStrings, s, x)
    ensures AscendingStrings(s) == [x] + AscendingStrings(s - {x})
  {
    StringsTotal();
    AscendingStep(CompareStrings, s, x);
  }

  lemma LeastString(s: set<string>)
    requires s != {}
    ensures exists x :: IsLeast(CompareStrings, s, x)
  {
    StringsTotal();
    LeastExists(CompareStrings, s);
  }

  lemma AccountsPartCons(name: string, rest: seq<string>, m1: map<string, AccountSnapshot>, m2: map<string, AccountSnapshot>, decoder: FieldDecoder)
    ensures AccountsPart([name] + rest, m1, m2, decoder)
         == AccountPart(name, Lookup(m1, name), Lookup(m2, name), decoder) + AccountsPart(rest, m1, m2, decoder)
  {
  }

  /** Every label of either side, in label order. */
  method CompareAccounts(m1: map<string, AccountSnapshot>, m2: map<string, AccountSnapshot>, decoder: FieldDecoder, soFar: seq<Difference>)
    returns (differences: seq<Difference>)
    ensures differences == soFar + AccountsPart(AscendingStrings(m1.Keys + m2.Keys), m1, m2, decoder)
  {
    differences := soFar;
    var labels := m1.Keys + m2.Keys;
    ghost var whole := soFar + AccountsPart(AscendingStrings(labels), m1, m2, decoder);
    while labels != {}
      invariant differences + AccountsPart(AscendingStrings(labels), m1, m2, decoder) == whole
      decreases |labels|
    {
      LeastString(labels);
      var name :| IsLeast(CompareStrings, labels, name);
      AscendingStringsStep(labels, name);
      AccountsPartCons(name, AscendingStrings(labels - {name}), m1, m2, decoder);
      Concat(differences, AccountPart(name, Lookup(m1, name), Lookup(m2, name), decoder),
             AccountsPart(AscendingStrings(labels - {name}), m1, m2, decoder));
      assert name in labels;
      hide *;
      differences := CompareAccount(name, Lookup(m1, name), Lookup(m2, name), decoder, differences);
      labels := labels - {name};
    }
    assert AscendingStrings({}) == [];
  }

  lemma DeltaWraps(a: u64, b: u64)
    ensures a == b ==> DeltaFits(a, b)
    ensures DeltaFits(a, b) ==> WrapI64(b) as int - WrapI64(a) == WrapI64(b as int - a)
  {
  }

  /** Compare two executions of one fixture: outcome, then accounts in label order, then
      invocations, then compute. `None` where the engine would abort. */
  method Compare(fixture: Fixture, v1: ExecutionResult, v2: ExecutionResult, decoder: FieldDecoder)
    returns (r: Option<StateDiff>)
    ensures r == if Completes(v1, v2) then Some(DiffOf(fixture, v1, v2, decoder)) else None
  {
    var differences: seq<Difference> := [];
    if v1.success != v2.success {
      differences := differences + [SuccessChanged(v1.success, v2.success, v1.error, v2.error)];
    }
    assert differences == OutcomePart(v1, v2);
    differences := CompareAccounts(v1.accounts, v2.accounts, decoder, differences);
    hide AccountsPart, AscendingStrings;
    var keys1, keys2 := InvocationKeys(v1.cpiCalls), InvocationKeys(v2.cpiCalls);
    if keys1 != keys2 {
      differences := differences + [CpiChanged(keys1, keys2)];
    }
    assert differences == BehaviourPart(v1, v2, decoder);
    assert differences + [] == differences;
    if v1.computeUnits.Some? && v2.computeUnits.Some? {
      var a, b := v1.computeUnits.value, v2.computeUnits.value;
      DeltaWraps(a, b);
      hide WrapI64, PctBps, BehaviourPart;
      if a != b {
        if !DeltaFits(a, b) {
          return None;
        }
        differences := differences + [ComputeChanged(a, b, WrapI64(b) as int - WrapI64(a), PctBps(a, b))];
      }
    }
    r := Some(StateDiff(fixture.id, fixture.category, fixture.scenario, fixture.notes, differences, v1, v2));
  }
}
