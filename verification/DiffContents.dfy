/** Everything a comparison reports, and nothing else: each difference stated on the two results, their
    accounts and the bytes in them (engine/src/diff.rs:314-497, engine/src/interpret.rs:90-290). */
module DiffContents {
  import opened Prelude
  import opened Text
  import opened Layout
  import opened Types
  import opened Order
  import opened Diff
  import opened DiffProperties
  import I = Interpret
  import H = Hexfmt
  import R = Reference

  // ---- narrowed numbers ----------------------------------------------------------------------------------

  /** The 64-bit reading of `n`: the one number of that width that differs from it by whole turns. */
  predicate Cast64(x: i64, n: int) {
    (n - x) % 0x1_0000_0000_0000_0000 == 0
  }

  predicate Cast32(x: i32, n: int) {
    (n - x) % 0x1_0000_0000 == 0
  }

  /** `q` is `n` over `d`, rounded toward zero. */
  predicate Truncates(q: int, n: int, d: nat) {
    if n >= 0 then q >= 0 && q * d <= n < (q + 1) * d else q <= 0 && (q - 1) * d < n <= q * d
  }

  /** A change in basis points of `a`: rounded toward zero, then narrowed to 32 bits. */
  ghost predicate Percentage(pct: i32, a: u64, b: u64) {
    if a == 0 then pct == 10_000 else exists q: int :: Truncates(q, (b - a) * 10_000, a) && Cast32(pct, q)
  }

  lemma TruncDivTruncates(n: int, d: nat)
    requires d > 0
    ensures Truncates(TruncDiv(n, d), n, d)
  {
    R.FloorBounds(Abs(n), d);
    R.QuotientShrinks(Abs(n), d);
    if n < 0 {
      var q := (-n) / d;
      assert (-q - 1) * d == -((q + 1) * d) && (-q) * d == -(q * d);
    }
  }

  lemma StepsApart(q: int, r: int, d: nat)
    requires q < r
    ensures (q + 1) * d <= r * d && q * d <= (r - 1) * d
  {
    assert (r - q - 1) * d >= 0;
  }

  lemma NotBelow(q: int, r: int, n: int, d: nat)
    requires d > 0 && Truncates(q, n, d) && Truncates(r, n, d)
    ensures q >= r
  {
    if q < r { StepsApart(q, r, d); }
  }

  lemma WrapIsCast(x: i64, n: int)
    ensures x == WrapI64(n) <==> Cast64(x, n)
  {
  }

  lemma WrapIsCast32(x: i32, n: int)
    ensures x == WrapI32(n) <==> Cast32(x, n)
  {
  }

  lemma PctIsPercentage(pct: i32, a: u64, b: u64)
    ensures pct == PctBps(a, b) <==> Percentage(pct, a, b)
  {
    if a > 0 {
      var n := (b - a) * 10_000;
      TruncDivTruncates(n, a);
      WrapIsCast32(pct, TruncDiv(n, a));
      hide TruncDiv, WrapI32, Cast32;
      if Percentage(pct, a, b) {
        var q :| Truncates(q, n, a) && Cast32(pct, q);
        NotBelow(q, TruncDiv(n, a), n, a);
        NotBelow(TruncDiv(n, a), q, n, a);
      }
    }
  }

  // ---- what is reported ------------------------------------------------------------------------------------

  ghost predicate OutcomeReported(v1: ExecutionResult, v2: ExecutionResult, d: Difference)
    requires d.SuccessChanged?
  {
    && d.v1Success == v1.success && d.v2Success == v2.success && v1.success != v2.success
    && d.v1Error == v1.error && d.v2Error == v2.error
  }

  ghost predicate BalanceReported(a: AccountSnapshot, b: AccountSnapshot, d: Difference)
    requires d.BalanceChanged?
  {
    && d.before == a.lamports && d.after == b.lamports && a.lamports != b.lamports
    && Cast64(d.balanceDelta, b.lamports as int - a.lamports)
  }

  /** One invocation as text: its program, depth, place, accounts, data length and first byte. */
  function CallText(c: CpiCall): string {
    c.program + "@" + Decimal(c.stackHeight) + "#" + Decimal(c.outerIndex) + ":" + Decimal(c.accountCount) + "/"
    + Decimal(c.dataLen) + "b:" + (if c.discriminant.Some? then Decimal(c.discriminant.value) else "-")
  }

  ghost predicate CallTexts(texts: seq<string>, calls: seq<CpiCall>) {
    |texts| == |calls| && forall i :: 0 <= i < |calls| ==> texts[i] == CallText(calls[i])
  }

  ghost predicate CallsReported(v1: ExecutionResult, v2: ExecutionResult, d: Difference)
    requires d.CpiChanged?
  {
    v1.cpiCalls != v2.cpiCalls && CallTexts(d.v1Calls, v1.cpiCalls) && CallTexts(d.v2Calls, v2.cpiCalls)
  }

  ghost predicate ComputeReported(v1: ExecutionResult, v2: ExecutionResult, d: Difference)
    requires d.ComputeChanged?
  {
    && v1.computeUnits == Some(d.v1Units) && v2.computeUnits == Some(d.v2Units) && d.v1Units != d.v2Units
    && Cast64(d.unitsDelta, d.v2Units as int - d.v1Units)
    && Percentage(d.pctBps, d.v1Units, d.v2Units)
  }

  /** Where two byte strings first part, or where the shorter one ends. */
  predicate FirstParts(offset: nat, a: Bytes, b: Bytes) {
    && offset <= |a| && offset <= |b| && a[..offset] == b[..offset]
    && (offset < |a| && offset < |b| ==> a[offset] != b[offset])
  }

  predicate HoldsPosition(data: Bytes) {
    |data| >= 110 && data[0] == 2
  }

  predicate HoldsMarket(data: Bytes) {
    |data| >= 86 && data[0] == 1
  }

  /** Both sides hold a position, or both a market, and the decoder may say so. */
  predicate SameStruct(a: Bytes, b: Bytes, decoder: FieldDecoder) {
    decoder == FixtureLending && ((HoldsPosition(a) && HoldsPosition(b)) || (HoldsMarket(a) && HoldsMarket(b)))
  }

  /** The bytes past the struct are the same. */
  predicate SameRest(a: Bytes, b: Bytes)
    requires SameStruct(a, b, FixtureLending)
  {
    if HoldsPosition(a) then a[110..] == b[110..] else a[86..] == b[86..]
  }

  /** Bytes are shown raw where the fields do not speak for them. */
  ghost predicate RawReported(a: Bytes, b: Bytes, decoder: FieldDecoder, d: Difference)
    requires d.RawDataChanged?
  {
    && a != b
    && (SameStruct(a, b, decoder) ==> !SameRest(a, b))
    && FirstParts(d.offset, a, b) && d.v1 == H.HexOf(a) && d.v2 == H.HexOf(b)
  }

  /** An account that only one side has is shown by its lamports. */
  ghost predicate PresenceReported(a: Option<AccountSnapshot>, b: Option<AccountSnapshot>, d: Difference)
    requires d.RawDataChanged?
  {
    && (a == None || b == None)
    && d.offset == 0
    && d.v1 == (if a.Some? then Decimal(a.value.lamports) + " lamports" else "<absent>")
    && d.v2 == (if b.Some? then Decimal(b.value.lamports) + " lamports" else "<absent>")
  }

  // ---- fields --------------------------------------------------------------------------------------------------

  /** The account's own fields, as they are shown. */
  function MetadataText(a: AccountSnapshot, field: string): Option<string> {
    if field == "owner" then Some(a.owner)
    else if field == "executable" then Some(if a.executable then "true" else "false")
    else if field == "rent_epoch" then Some(Decimal(a.rentEpoch))
    else None
  }

  ghost predicate MetadataReported(a: AccountSnapshot, b: AccountSnapshot, d: Difference)
    requires d.FieldChanged?
  {
    && MetadataText(a, d.field) == Some(d.v1) && MetadataText(b, d.field) == Some(d.v2) && d.v1 != d.v2
    && d.delta == None && d.consequence == None
  }

  /** The numbers of a position, by name and place. */
  function PositionNumber(data: Bytes, field: string): Option<u64>
    requires HoldsPosition(data)
  {
    if field == "collateral_amount" then Some(U64At(data, 66))
    else if field == "debt_amount" then Some(U64At(data, 74))
    else if field == "collateral_price" then Some(U64At(data, 82))
    else if field == "liquidation_threshold_bps" then Some(U16At(data, 90))
    else if field == "max_ltv_bps" then Some(U16At(data, 92))
    else if field == "health_factor" then Some(U64At(data, 94))
    else if field == "last_update_slot" then Some(U64At(data, 102))
    else None
  }

  function MarketNumber(data: Bytes, field: string): Option<u64>
    requires HoldsMarket(data)
  {
    if field == "collateral_price" then Some(U64At(data, 66))
    else if field == "liquidation_threshold_bps" then Some(U16At(data, 74))
    else if field == "max_ltv_bps" then Some(U16At(data, 76))
    else if field == "position_count" then Some(U64At(data, 78))
    else None
  }

  /** The number under a name in a struct both sides hold. */
  function NumberIn(data: Bytes, field: string): Option<u64> {
    if HoldsPosition(data) then PositionNumber(data, field)
    else if HoldsMarket(data) then MarketNumber(data, field)
    else None
  }

  /** The addresses: a position's owner and market, a market's authority and vault. */
  function AddressIn(data: Bytes, field: string): Option<Bytes> {
    if HoldsPosition(data) then
      if field == "owner" then Some(data[2..34]) else if field == "market" then Some(data[34..66]) else None
    else if HoldsMarket(data) then
      if field == "authority" then Some(data[2..34]) else if field == "vault" then Some(data[34..66]) else None
    else None
  }

  /** The difference of two numbers, where 64 bits can hold it. */
  predicate DeltaIs(delta: Option<i64>, n: int) {
    if -0x8000_0000_0000_0000 <= n <= 0x7FFF_FFFF_FFFF_FFFF then delta == Some(n) else delta == None
  }

  /** What is said about a number that moved from `x` to `y`. */
  function Remark(field: string, x: u64, y: u64): Option<string> {
    if field == "health_factor" then
      if x >= 1_000_000 > y then Some("position crosses below the liquidation threshold")
      else if y >= 1_000_000 > x then Some("position rises above the liquidation threshold")
      else if y < x then Some("position is closer to liquidation")
      else Some("position is further from liquidation")
    else if field == "collateral_amount" then
      Some("collateral differs by " + SignedDecimal(y as int - x) + " lamports for the same instruction")
    else if field == "debt_amount" then Some("recorded debt differs by " + SignedDecimal(y as int - x) + " micro-USD")
    else None
  }

  function NumberText(field: string, x: u64): string {
    if field == "health_factor" then I.FormatHealth(x) else Decimal(x)
  }

  /** The field is reported to have moved from one number to another. */
  predicate NumberMoved(name: string, field: string, x: u64, y: u64, d: Difference) {
    && d.FieldChanged? && d.account == name && d.field == field && x != y
    && d.v1 == NumberText(field, x) && d.v2 == NumberText(field, y)
    && DeltaIs(d.delta, y as int - x) && d.consequence == Remark(field, x, y)
  }

  predicate AddressMoved(name: string, field: string, x: Bytes, y: Bytes, d: Difference) {
    && d.FieldChanged? && d.account == name && d.field == field && x != y
    && d.v1 == H.HexOf(x) && d.v2 == H.HexOf(y) && d.delta == None && d.consequence == None
  }

  ghost predicate NumberReported(a: Bytes, b: Bytes, d: Difference)
    requires d.FieldChanged?
  {
    var x, y := NumberIn(a, d.field), NumberIn(b, d.field);
    x.Some? && y.Some? && NumberMoved(d.account, d.field, x.value, y.value, d)
  }

  ghost predicate AddressReported(a: Bytes, b: Bytes, d: Difference)
    requires d.FieldChanged?
  {
    var x, y := AddressIn(a, d.field), AddressIn(b, d.field);
    x.Some? && y.Some? && AddressMoved(d.account, d.field, x.value, y.value, d)
  }

  /** The status of a position is reported to have moved with its health. */
  predicate StatusMoved(name: string, x: u64, y: u64, d: Difference) {
    && d.LiquidationStatusChanged? && d.account == name
    && d.was == (x < 1_000_000) && d.now == (y < 1_000_000) && d.was != d.now
    && d.v1Health == I.FormatHealth(x) && d.v2Health == I.FormatHealth(y)
  }

  /** A position whose cached health crosses 1.0. */
  ghost predicate StatusReported(a: Bytes, b: Bytes, d: Difference)
    requires d.LiquidationStatusChanged?
  {
    HoldsPosition(a) && HoldsPosition(b) && StatusMoved(d.account, U64At(a, 94), U64At(b, 94), d)
  }

  // ---- the whole list ------------------------------------------------------------------------------------------

  ghost predicate DataReported(a: Bytes, b: Bytes, decoder: FieldDecoder, d: Difference) {
    match d
    case FieldChanged(_, _, _, _, _, _) => SameStruct(a, b, decoder) && (NumberReported(a, b, d) || AddressReported(a, b, d))
    case LiquidationStatusChanged(_, _, _, _, _) => SameStruct(a, b, decoder) && StatusReported(a, b, d)
    case RawDataChanged(_, _, _, _) => RawReported(a, b, decoder, d)
    case _ => false
  }

  ghost predicate SnapshotReported(a: AccountSnapshot, b: AccountSnapshot, decoder: FieldDecoder, d: Difference) {
    || (d.BalanceChanged? && BalanceReported(a, b, d))
    || (d.FieldChanged? && MetadataReported(a, b, d))
    || DataReported(a.data, b.data, decoder, d)
  }

  ghost predicate AccountReported(a: Option<AccountSnapshot>, b: Option<AccountSnapshot>, decoder: FieldDecoder, d: Difference) {
    if a.Some? && b.Some? then SnapshotReported(a.value, b.value, decoder, d)
    else d.RawDataChanged? && PresenceReported(a, b, d)
  }

  predicate OfAccount(d: Difference) {
    d.BalanceChanged? || d.FieldChanged? || d.RawDataChanged? || d.LiquidationStatusChanged?
  }

  /** `d` is true of the two results: the outcome, an account under one of its labels, the invocations or
      the compute differ as it says. */
  ghost predicate Reported(v1: ExecutionResult, v2: ExecutionResult, decoder: FieldDecoder, d: Difference) {
    match d
    case SuccessChanged(_, _, _, _) => OutcomeReported(v1, v2, d)
    case CpiChanged(_, _) => CallsReported(v1, v2, d)
    case ComputeChanged(_, _, _, _) => ComputeReported(v1, v2, d)
    case _ =>
      && (d.account in v1.accounts || d.account in v2.accounts)
      && AccountReported(Lookup(v1.accounts, d.account), Lookup(v2.accounts, d.account), decoder, d)
  }

  // ---- fields, one at a time -------------------------------------------------------------------------------------

  lemma Peel(name: string, xs: seq<(string, I.FieldValue)>, ys: seq<(string, I.FieldValue)>, i: nat, d: Difference)
    requires i < |xs| && i < |ys|
    ensures d in FieldParts(name, xs[i..], ys[i..]) <==>
      d in FieldPart(name, xs[i].0, xs[i].1, ys[i].1) || d in FieldParts(name, xs[i + 1..], ys[i + 1..])
  {
    FieldPartsAt(name, xs, ys, i);
    hide *;
  }

  lemma PeelAll(name: string, xs: seq<(string, I.FieldValue)>, ys: seq<(string, I.FieldValue)>)
    ensures FieldParts(name, xs[0..], ys[0..]) == FieldParts(name, xs, ys)
    ensures |xs| == |ys| ==> FieldParts(name, xs[|xs|..], ys[|ys|..]) == []
  {
    assert xs[0..] == xs && ys[0..] == ys;
  }

  /** A number of a struct, not a health. */
  lemma NumberPart(name: string, field: string, x: u64, y: u64, d: Difference)
    requires field != "health_factor"
    ensures d in FieldPart(name, field, I.Unsigned(x), I.Unsigned(y)) <==> NumberMoved(name, field, x, y, d)
  {
    hide Decimal, SignedDecimal;
  }

  lemma AddressPart(name: string, field: string, x: Address, y: Address, d: Difference)
    ensures d in FieldPart(name, field, I.Text(I.AddressText(x)), I.Text(I.AddressText(y))) <==> AddressMoved(name, field, x, y, d)
  {
    if H.HexOf(x) == H.HexOf(y) { H.HexInjective(x, y); }
    hide H.HexOf, SignedDecimal;
  }

  lemma HealthPart(name: string, x: u64, y: u64, d: Difference)
    ensures d in FieldPart(name, "health_factor", I.Health(x), I.Health(y)) <==>
      NumberMoved(name, "health_factor", x, y, d) || StatusMoved(name, x, y, d)
  {
    assert I.Explain("health_factor", I.Health(x), I.Health(y)) == Remark("health_factor", x, y) || x == y by {
      hide I.FormatHealth, SignedDecimal;
    }
    assert d in CrossingPart(name, I.Health(x), I.Health(y)) <==> StatusMoved(name, x, y, d) by {
      hide I.FormatHealth;
    }
    hide I.FormatHealth, SignedDecimal, I.Explain, Remark, CrossingPart, StatusMoved;
  }

  lemma PositionParts(name: string, p: Position, q: Position, d: Difference)
    ensures d in FieldParts(name, I.PositionFields(p), I.PositionFields(q)) <==>
      || d in FieldPart(name, "owner", I.Text(I.AddressText(p.owner)), I.Text(I.AddressText(q.owner)))
      || d in FieldPart(name, "market", I.Text(I.AddressText(p.market)), I.Text(I.AddressText(q.market)))
      || d in FieldPart(name, "collateral_amount", I.Unsigned(p.collateralAmount), I.Unsigned(q.collateralAmount))
      || d in FieldPart(name, "debt_amount", I.Unsigned(p.debtAmount), I.Unsigned(q.debtAmount))
      || d in FieldPart(name, "collateral_price", I.Unsigned(p.collateralPrice), I.Unsigned(q.collateralPrice))
      || d in FieldPart(name, "liquidation_threshold_bps", I.Unsigned(p.liquidationThresholdBps), I.Unsigned(q.liquidationThresholdBps))
      || d in FieldPart(name, "max_ltv_bps", I.Unsigned(p.maxLtvBps), I.Unsigned(q.maxLtvBps))
      || d in FieldPart(name, "health_factor", I.Health(p.healthFactor), I.Health(q.healthFactor))
      || d in FieldPart(name, "last_update_slot", I.Unsigned(p.lastUpdateSlot), I.Unsigned(q.lastUpdateSlot))
  {
    var xs, ys := I.PositionFields(p), I.PositionFields(q);
    assert |xs| == 9 == |ys|;
    PeelAll(name, xs, ys);
    Peel(name, xs, ys, 0, d);
    Peel(name, xs, ys, 1, d);
    Peel(name, xs, ys, 2, d);
    Peel(name, xs, ys, 3, d);
    Peel(name, xs, ys, 4, d);
    Peel(name, xs, ys, 5, d);
    Peel(name, xs, ys, 6, d);
    Peel(name, xs, ys, 7, d);
    Peel(name, xs, ys, 8, d);
    hide FieldPart, FieldParts, I.AddressText;
  }

  lemma MarketParts(name: string, m: Market, n: Market, d: Difference)
    ensures d in FieldParts(name, I.MarketFields(m), I.MarketFields(n)) <==>
      || d in FieldPart(name, "authority", I.Text(I.AddressText(m.authority)), I.Text(I.AddressText(n.authority)))
      || d in FieldPart(name, "vault", I.Text(I.AddressText(m.vault)), I.Text(I.AddressText(n.vault)))
      || d in FieldPart(name, "collateral_price", I.Unsigned(m.collateralPrice), I.Unsigned(n.collateralPrice))
      || d in FieldPart(name, "liquidation_threshold_bps", I.Unsigned(m.liquidationThresholdBps), I.Unsigned(n.liquidationThresholdBps))
      || d in FieldPart(name, "max_ltv_bps", I.Unsigned(m.maxLtvBps), I.Unsigned(n.maxLtvBps))
      || d in FieldPart(name, "position_count", I.Unsigned(m.positionCount), I.Unsigned(n.positionCount))
  {
    var xs, ys := I.MarketFields(m), I.MarketFields(n);
    assert |xs| == 6 == |ys|;
    PeelAll(name, xs, ys);
    Peel(name, xs, ys, 0, d);
    Peel(name, xs, ys, 1, d);
    Peel(name, xs, ys, 2, d);
    Peel(name, xs, ys, 3, d);
    Peel(name, xs, ys, 4, d);
    Peel(name, xs, ys, 5, d);
    hide FieldPart, FieldParts, I.AddressText;
  }

  // ---- accounts ------------------------------------------------------------------------------------------------------

  lemma MovedNames(name: string, field: string, d: Difference)
    ensures forall x, y :: NumberMoved(name, field, x, y, d) ==> d.FieldChanged? && d.account == name && d.field == field
    ensures forall x, y :: AddressMoved(name, field, x, y, d) ==> d.FieldChanged? && d.account == name && d.field == field
    ensures forall x, y :: StatusMoved(name, x, y, d) ==> d.LiquidationStatusChanged? && d.account == name
  {
  }

  /** The nine fields of a position, by name. */
  lemma PositionByName(name: string, p: Position, q: Position, d: Difference)
    ensures d in FieldParts(name, I.PositionFields(p), I.PositionFields(q)) <==>
      || AddressMoved(name, "owner", p.owner, q.owner, d)
      || AddressMoved(name, "market", p.market, q.market, d)
      || NumberMoved(name, "collateral_amount", p.collateralAmount, q.collateralAmount, d)
      || NumberMoved(name, "debt_amount", p.debtAmount, q.debtAmount, d)
      || NumberMoved(name, "collateral_price", p.collateralPrice, q.collateralPrice, d)
      || NumberMoved(name, "liquidation_threshold_bps", p.liquidationThresholdBps, q.liquidationThresholdBps, d)
      || NumberMoved(name, "max_ltv_bps", p.maxLtvBps, q.maxLtvBps, d)
      || NumberMoved(name, "health_factor", p.healthFactor, q.healthFactor, d)
      || StatusMoved(name, p.healthFactor, q.healthFactor, d)
      || NumberMoved(name, "last_update_slot", p.lastUpdateSlot, q.lastUpdateSlot, d)
  {
    PositionParts(name, p, q, d);
    hide FieldPart, FieldParts, NumberMoved, AddressMoved, StatusMoved, I.PositionFields, I.AddressText;
    AddressPart(name, "owner", p.owner, q.owner, d);
    AddressPart(name, "market", p.market, q.market, d);
    NumberPart(name, "collateral_amount", p.collateralAmount, q.collateralAmount, d);
    NumberPart(name, "debt_amount", p.debtAmount, q.debtAmount, d);
    NumberPart(name, "collateral_price", p.collateralPrice, q.collateralPrice, d);
    NumberPart(name, "liquidation_threshold_bps", p.liquidationThresholdBps, q.liquidationThresholdBps, d);
    NumberPart(name, "max_ltv_bps", p.maxLtvBps, q.maxLtvBps, d);
    NumberPart(name, "last_update_slot", p.lastUpdateSlot, q.lastUpdateSlot, d);
    HealthPart(name, p.healthFactor, q.healthFactor, d);
  }

  lemma MarketByName(name: string, m: Market, n: Market, d: Difference)
    ensures d in FieldParts(name, I.MarketFields(m), I.MarketFields(n)) <==>
      || AddressMoved(name, "authority", m.authority, n.authority, d)
      || AddressMoved(name, "vault", m.vault, n.vault, d)
      || NumberMoved(name, "collateral_price", m.collateralPrice, n.collateralPrice, d)
      || NumberMoved(name, "liquidation_threshold_bps", m.liquidationThresholdBps, n.liquidationThresholdBps, d)
      || NumberMoved(name, "max_ltv_bps", m.maxLtvBps, n.maxLtvBps, d)
      || NumberMoved(name, "position_count", m.positionCount, n.positionCount, d)
  {
    MarketParts(name, m, n, d);
    hide FieldPart, FieldParts, NumberMoved, AddressMoved, I.MarketFields, I.AddressText;
    AddressPart(name, "authority", m.authority, n.authority, d);
    AddressPart(name, "vault", m.vault, n.vault, d);
    NumberPart(name, "collateral_price", m.collateralPrice, n.collateralPrice, d);
    NumberPart(name, "liquidation_threshold_bps", m.liquidationThresholdBps, n.liquidationThresholdBps, d);
    NumberPart(name, "max_ltv_bps", m.maxLtvBps, n.maxLtvBps, d);
    NumberPart(name, "position_count", m.positionCount, n.positionCount, d);
  }

  /** A struct's field names select its numbers and addresses, each under its own name. */
  lemma PositionNames(name: string, a: Bytes, b: Bytes, d: Difference)
    requires HoldsPosition(a) && HoldsPosition(b) && d.FieldChanged? && d.account == name
    ensures NumberReported(a, b, d) <==>
      || NumberMoved(name, "collateral_amount", U64At(a, 66), U64At(b, 66), d)
      || NumberMoved(name, "debt_amount", U64At(a, 74), U64At(b, 74), d)
      || NumberMoved(name, "collateral_price", U64At(a, 82), U64At(b, 82), d)
      || NumberMoved(name, "liquidation_threshold_bps", U16At(a, 90), U16At(b, 90), d)
      || NumberMoved(name, "max_ltv_bps", U16At(a, 92), U16At(b, 92), d)
      || NumberMoved(name, "health_factor", U64At(a, 94), U64At(b, 94), d)
      || NumberMoved(name, "last_update_slot", U64At(a, 102), U64At(b, 102), d)
    ensures AddressReported(a, b, d) <==>
      AddressMoved(name, "owner", a[2..34], b[2..34], d) || AddressMoved(name, "market", a[34..66], b[34..66], d)
  {
    MovedNames(name, "owner", d);
    MovedNames(name, "market", d);
    MovedNames(name, "collateral_amount", d);
    MovedNames(name, "debt_amount", d);
    MovedNames(name, "collateral_price", d);
    MovedNames(name, "liquidation_threshold_bps", d);
    MovedNames(name, "max_ltv_bps", d);
    MovedNames(name, "health_factor", d);
    MovedNames(name, "last_update_slot", d);
    assert "max_ltv_bps"[0] != "debt_amount"[0] && "collateral_price"[0] != "last_update_slot"[0];
    hide NumberMoved, AddressMoved, StatusMoved, U64At, U16At;
  }

  lemma PositionMembers(name: string, a: Bytes, b: Bytes, d: Difference)
    requires HoldsPosition(a) && HoldsPosition(b)
    ensures d in FieldParts(name, I.PositionFields(DecodePosition(a[..110])), I.PositionFields(DecodePosition(b[..110]))) <==>
      || (d.FieldChanged? && d.account == name && (NumberReported(a, b, d) || AddressReported(a, b, d)))
      || (d.LiquidationStatusChanged? && d.account == name && StatusReported(a, b, d))
  {
    var p, q := DecodePosition(a[..110]), DecodePosition(b[..110]);
    PositionByName(name, p, q, d);
    I.PositionNumbers(a);
    I.PositionNumbers(b);
    OnlyFieldsAndStatus(name, d);
    if d.FieldChanged? && d.account == name { PositionNames(name, a, b, d); }
    hide FieldParts, NumberMoved, AddressMoved, StatusMoved, U64At, U16At, DecodePosition, I.PositionFields, NumberReported, AddressReported;
  }

  lemma OnlyFieldsAndStatus(name: string, d: Difference)
    ensures forall field, x, y :: NumberMoved(name, field, x, y, d) ==> d.FieldChanged? && d.account == name
    ensures forall field, x, y :: AddressMoved(name, field, x, y, d) ==> d.FieldChanged? && d.account == name
    ensures forall x, y :: StatusMoved(name, x, y, d) ==> d.LiquidationStatusChanged? && d.account == name
  {
  }

  lemma MarketMembers(name: string, a: Bytes, b: Bytes, d: Difference)
    requires HoldsMarket(a) && HoldsMarket(b)
    ensures d in FieldParts(name, I.MarketFields(DecodeMarket(a[..86])), I.MarketFields(DecodeMarket(b[..86]))) <==>
      d.FieldChanged? && d.account == name && (NumberReported(a, b, d) || AddressReported(a, b, d))
  {
    var m, n := DecodeMarket(a[..86]), DecodeMarket(b[..86]);
    MarketByName(name, m, n, d);
    I.MarketNumbers(a);
    I.MarketNumbers(b);
    MovedNames(name, "authority", d);
    MovedNames(name, "vault", d);
    MovedNames(name, "collateral_price", d);
    MovedNames(name, "liquidation_threshold_bps", d);
    MovedNames(name, "max_ltv_bps", d);
    MovedNames(name, "position_count", d);
    hide FieldParts, NumberMoved, AddressMoved, U64At, U16At, DecodeMarket, I.MarketFields;
  }

  lemma OffsetOnce(x: nat, y: nat, a: Bytes, b: Bytes)
    requires FirstParts(x, a, b) && FirstParts(y, a, b) && a != b
    ensures x == y
  {
    OffsetNotBelow(x, y, a, b);
    OffsetNotBelow(y, x, a, b);
  }

  lemma OffsetNotBelow(x: nat, y: nat, a: Bytes, b: Bytes)
    requires FirstParts(x, a, b) && FirstParts(y, a, b) && a != b
    ensures x >= y
  {
    assert forall k :: 0 <= k < y ==> a[k] == a[..y][k] && b[k] == b[..y][k];
  }

  lemma RawMembers(name: string, a: Bytes, b: Bytes, d: Difference)
    requires a != b
    ensures d in [RawData(name, a, b)] <==>
      d.RawDataChanged? && d.account == name && FirstParts(d.offset, a, b) && d.v1 == H.HexOf(a) && d.v2 == H.HexOf(b)
  {
    assert FirstParts(FirstDifferenceOffset(a, b), a, b);
    hide FirstDifferenceOffset, H.HexOf, FirstParts;
    if d.RawDataChanged? && FirstParts(d.offset, a, b) {
      OffsetOnce(d.offset, FirstDifferenceOffset(a, b), a, b);
    }
  }

  lemma StructsAre(a: Bytes, b: Bytes, decoder: FieldDecoder)
    ensures SameStruct(a, b, decoder) <==> I.SameLayout(Decoded(a, decoder), Decoded(b, decoder))
    ensures SameStruct(a, b, decoder) && HoldsPosition(a) ==>
      && HoldsPosition(b) && I.DecodedLen(Decoded(a, decoder)) == 110
      && I.Fields(Decoded(a, decoder)) == I.PositionFields(DecodePosition(a[..110]))
      && I.Fields(Decoded(b, decoder)) == I.PositionFields(DecodePosition(b[..110]))
    ensures SameStruct(a, b, decoder) && !HoldsPosition(a) ==>
      && HoldsMarket(a) && HoldsMarket(b) && I.DecodedLen(Decoded(a, decoder)) == 86
      && I.Fields(Decoded(a, decoder)) == I.MarketFields(DecodeMarket(a[..86]))
      && I.Fields(Decoded(b, decoder)) == I.MarketFields(DecodeMarket(b[..86]))
  {
    hide DecodePosition, DecodeMarket, I.PositionFields, I.MarketFields;
  }

  lemma SilentData(a: Bytes, d: Difference, decoder: FieldDecoder)
    ensures !DataReported(a, a, decoder, d)
  {
    hide H.HexOf, I.FormatHealth, Decimal;
  }

  /** The differences of an account's bytes. */
  lemma DataMembers(name: string, a: Bytes, b: Bytes, decoder: FieldDecoder, d: Difference)
    ensures d in DataPart(name, a, b, decoder) <==> OfAccount(d) && d.account == name && DataReported(a, b, decoder, d)
  {
    SilentData(a, d, decoder);
    if a != b {
      StructsAre(a, b, decoder);
      RawMembers(name, a, b, d);
      if SameStruct(a, b, decoder) {
        if HoldsPosition(a) { PositionMembers(name, a, b, d); } else { MarketMembers(name, a, b, d); }
        var x, y := Decoded(a, decoder), Decoded(b, decoder);
        assert d in DataPart(name, a, b, decoder) <==>
          d in TailPart(name, a, b, I.DecodedLen(x)) || d in FieldParts(name, I.Fields(x), I.Fields(y));
      }
      hide FieldParts, I.Fields, I.PositionFields, I.MarketFields, Decoded, DecodePosition, DecodeMarket, RawData, FirstParts, H.HexOf,
           NumberReported, AddressReported, StatusMoved, U64At, I.DecodedLen, I.SameLayout;
    }
  }

  lemma MetadataMembers(name: string, a: AccountSnapshot, b: AccountSnapshot, d: Difference)
    ensures d in MetadataPart(name, a, b) <==> d.FieldChanged? && d.account == name && MetadataReported(a, b, d)
  {
    hide Decimal;
  }

  lemma SnapshotMembers(name: string, a: AccountSnapshot, b: AccountSnapshot, decoder: FieldDecoder, d: Difference)
    ensures d in SnapshotPart(name, a, b, decoder) <==> OfAccount(d) && d.account == name && SnapshotReported(a, b, decoder, d)
  {
    MetadataMembers(name, a, b, d);
    DataMembers(name, a.data, b.data, decoder, d);
    if d.BalanceChanged? { WrapIsCast(d.balanceDelta, b.lamports as int - a.lamports); }
    assert d in BalancePart(name, a, b) <==> d.BalanceChanged? && d.account == name && BalanceReported(a, b, d) by {
      hide Cast64;
    }
    hide BalancePart, MetadataPart, DataPart, BalanceReported, MetadataReported, DataReported;
  }

  lemma AccountMembers(name: string, a: Option<AccountSnapshot>, b: Option<AccountSnapshot>, decoder: FieldDecoder, d: Difference)
    ensures d in AccountPart(name, a, b, decoder) <==> OfAccount(d) && d.account == name && AccountReported(a, b, decoder, d)
  {
    if a.Some? && b.Some? { SnapshotMembers(name, a.value, b.value, decoder, d); }
    hide SnapshotPart, SnapshotReported, Decimal;
  }

  lemma {:induction false} AccountsMembers(names: seq<string>, m1: map<string, AccountSnapshot>, m2: map<string, AccountSnapshot>,
                                           decoder: FieldDecoder, d: Difference)
    ensures d in AccountsPart(names, m1, m2, decoder) <==>
      OfAccount(d) && d.account in names && AccountReported(Lookup(m1, d.account), Lookup(m2, d.account), decoder, d)
  {
    if names != [] {
      AccountsMembers(names[1..], m1, m2, decoder, d);
      AccountMembers(names[0], Lookup(m1, names[0]), Lookup(m2, names[0]), decoder, d);
      hide AccountPart, AccountReported, Lookup;
      assert forall n :: n in names <==> n == names[0] || n in names[1..];
    }
  }

  lemma ShapeIsText(c: CpiCall)
    ensures InvocationKey(c) == CallText(c)
  {
    hide Decimal;
  }

  lemma KeysAreTexts(texts: seq<string>, calls: seq<CpiCall>)
    ensures texts == InvocationKeys(calls) <==> CallTexts(texts, calls)
  {
    forall c ensures InvocationKey(c) == CallText(c) {
      ShapeIsText(c);
    }
    hide InvocationKey, CallText;
  }

  lemma CpiMembers(v1: ExecutionResult, v2: ExecutionResult, d: Difference)
    ensures d in CpiPart(v1, v2) <==> d.CpiChanged? && CallsReported(v1, v2, d)
  {
    InvocationKeysInjective(v1.cpiCalls, v2.cpiCalls);
    if d.CpiChanged? {
      KeysAreTexts(d.v1Calls, v1.cpiCalls);
      KeysAreTexts(d.v2Calls, v2.cpiCalls);
    }
    hide InvocationKeys, CallTexts;
  }

  lemma ComputeMembers(v1: ExecutionResult, v2: ExecutionResult, d: Difference)
    ensures d in ComputePart(v1, v2) <==> d.ComputeChanged? && ComputeReported(v1, v2, d)
  {
    if d.ComputeChanged? {
      WrapIsCast(d.unitsDelta, d.v2Units as int - d.v1Units);
      PctIsPercentage(d.pctBps, d.v1Units, d.v2Units);
    }
    hide WrapI64, PctBps, Cast64, Percentage;
  }

  /** A comparison lists exactly what is true of the two results: every change there is, each with both of its
      sides, and nothing else. */
  lemma DifferencesAre(v1: ExecutionResult, v2: ExecutionResult, decoder: FieldDecoder, d: Difference)
    ensures d in Differences(v1, v2, decoder) <==> Reported(v1, v2, decoder, d)
  {
    var keys := v1.accounts.Keys + v2.accounts.Keys;
    AscendingStringsMembers(keys);
    AccountsMembers(AscendingStrings(keys), v1.accounts, v2.accounts, decoder, d);
    CpiMembers(v1, v2, d);
    ComputeMembers(v1, v2, d);
    assert d in OutcomePart(v1, v2) <==> d.SuccessChanged? && OutcomeReported(v1, v2, d);
    hide OutcomePart, AccountsPart, CpiPart, ComputePart, AscendingStrings, AccountReported, OutcomeReported, CallsReported, ComputeReported, Lookup;
  }

  // ---- once each -------------------------------------------------------------------------------------------------

  /** The two are about one thing. An account's own `owner` and that of the position in it are two things that
      share a name. */
  predicate SameSubject(x: Difference, y: Difference) {
    || (x.SuccessChanged? && y.SuccessChanged?)
    || (x.CpiChanged? && y.CpiChanged?)
    || (x.ComputeChanged? && y.ComputeChanged?)
    || (x.BalanceChanged? && y.BalanceChanged? && x.account == y.account)
    || (x.RawDataChanged? && y.RawDataChanged? && x.account == y.account)
    || (x.LiquidationStatusChanged? && y.LiquidationStatusChanged? && x.account == y.account)
    || (x.FieldChanged? && y.FieldChanged? && x.account == y.account && x.field == y.field && x.field != "owner")
  }

  ghost predicate OnceEach(ds: seq<Difference>) {
    forall i, j :: 0 <= i < j < |ds| ==> !SameSubject(ds[i], ds[j])
  }

  ghost predicate Unrelated(a: seq<Difference>, b: seq<Difference>) {
    forall x, y :: x in a && y in b ==> !SameSubject(x, y)
  }

  lemma OnceEachAppend(a: seq<Difference>, b: seq<Difference>)
    requires OnceEach(a) && OnceEach(b) && Unrelated(a, b)
    ensures OnceEach(a + b)
  {
    hide SameSubject;
  }

  lemma AtMostOne(ds: seq<Difference>)
    requires |ds| <= 1
    ensures OnceEach(ds)
  {
  }

  ghost predicate NamesDiffer(xs: seq<(string, I.FieldValue)>) {
    forall i, j :: 0 <= i < j < |xs| ==> xs[i].0 != xs[j].0 && !(xs[i].1.Health? && xs[j].1.Health?)
  }

  ghost predicate Names(xs: seq<(string, I.FieldValue)>, field: string) {
    exists i :: 0 <= i < |xs| && xs[i].0 == field
  }

  /** A field part speaks of its fields alone, and of a status only beside a health. */
  ghost predicate SpeaksOf(ds: seq<Difference>, xs: seq<(string, I.FieldValue)>) {
    forall d :: d in ds ==>
      || (d.FieldChanged? && Names(xs, d.field))
      || (d.LiquidationStatusChanged? && exists i :: 0 <= i < |xs| && xs[i].1.Health?)
  }

  lemma NamesHead(xs: seq<(string, I.FieldValue)>)
    requires xs != [] && NamesDiffer(xs)
    ensures NamesDiffer(xs[1..]) && !Names(xs[1..], xs[0].0)
    ensures xs[0].1.Health? ==> forall i :: 0 <= i < |xs[1..]| ==> !xs[1..][i].1.Health?
    ensures forall field :: Names(xs, field) <==> field == xs[0].0 || Names(xs[1..], field)
  {
    assert forall i :: 0 <= i < |xs[1..]| ==> xs[1..][i] == xs[i + 1];
    forall field | Names(xs, field) && field != xs[0].0 ensures Names(xs[1..], field) {
      var i :| 0 <= i < |xs| && xs[i].0 == field;
      assert xs[1..][i - 1].0 == field;
    }
    forall field | Names(xs[1..], field) ensures Names(xs, field) {
      var i :| 0 <= i < |xs[1..]| && xs[1..][i].0 == field;
      assert xs[i + 1].0 == field;
    }
    assert Names(xs, xs[0].0);
  }

  lemma HeadPart(name: string, field: string, x: I.FieldValue, y: I.FieldValue)
    ensures OnceEach(FieldPart(name, field, x, y))
    ensures forall d :: d in FieldPart(name, field, x, y) ==>
      (d.FieldChanged? && d.field == field) || (d.LiquidationStatusChanged? && x.Health?)
  {
    hide I.FieldValue.Render, I.Explain, FieldDelta, I.FormatHealth;
  }

  lemma {:induction false} FieldsOnceEach(name: string, xs: seq<(string, I.FieldValue)>, ys: seq<(string, I.FieldValue)>)
    requires |xs| == |ys| && NamesDiffer(xs)
    ensures OnceEach(FieldParts(name, xs, ys)) && SpeaksOf(FieldParts(name, xs, ys), xs)
  {
    if xs == [] {
      AtMostOne(FieldParts(name, xs, ys));
    } else {
      var head, rest := FieldPart(name, xs[0].0, xs[0].1, ys[0].1), FieldParts(name, xs[1..], ys[1..]);
      NamesHead(xs);
      FieldsOnceEach(name, xs[1..], ys[1..]);
      HeadPart(name, xs[0].0, xs[0].1, ys[0].1);
      assert FieldParts(name, xs, ys) == head + rest;
      hide FieldParts, FieldPart, OnceEach, NamesDiffer, Names;
      SpeakOn(head, rest, xs);
      OnceEachAppend(head, rest);
    }
  }

  lemma SpeakOn(head: seq<Difference>, rest: seq<Difference>, xs: seq<(string, I.FieldValue)>)
    requires xs != [] && !Names(xs[1..], xs[0].0) && SpeaksOf(rest, xs[1..])
    requires forall d :: d in head ==> (d.FieldChanged? && d.field == xs[0].0) || (d.LiquidationStatusChanged? && xs[0].1.Health?)
    requires xs[0].1.Health? ==> forall i :: 0 <= i < |xs[1..]| ==> !xs[1..][i].1.Health?
    requires forall field :: Names(xs, field) <==> field == xs[0].0 || Names(xs[1..], field)
    ensures Unrelated(head, rest) && SpeaksOf(head + rest, xs)
  {
    hide Names;
    assert forall i :: 0 <= i < |xs[1..]| ==> xs[1..][i] == xs[i + 1];
  }

  lemma StructNamesDiffer(d: I.Decoded)
    ensures NamesDiffer(I.Fields(d))
    ensures !Names(I.Fields(d), "executable") && !Names(I.Fields(d), "rent_epoch")
  {
    assert "max_ltv_bps"[0] != "debt_amount"[0] && "collateral_price"[0] != "last_update_slot"[0] && "owner"[0] != "vault"[0];
    hide I.AddressText;
  }

  /** Differences of bytes: none is a balance, none has the name of an account's own flag. */
  ghost predicate AboutData(ds: seq<Difference>) {
    forall d :: d in ds ==> !d.BalanceChanged? && (d.FieldChanged? ==> d.field != "executable" && d.field != "rent_epoch")
  }

  lemma TailAndFields(tail: seq<Difference>, fields: seq<Difference>, xs: seq<(string, I.FieldValue)>)
    requires |tail| <= 1 && forall d :: d in tail ==> d.RawDataChanged?
    requires OnceEach(fields) && SpeaksOf(fields, xs) && !Names(xs, "executable") && !Names(xs, "rent_epoch")
    ensures OnceEach(tail + fields) && AboutData(tail + fields)
  {
    hide OnceEach, Names;
    AtMostOne(tail);
    assert Unrelated(tail, fields) && AboutData(tail) && AboutData(fields);
    hide Unrelated, SpeaksOf;
    OnceEachAppend(tail, fields);
  }

  lemma DataShape(name: string, a: Bytes, b: Bytes, decoder: FieldDecoder)
    ensures var x, y := Decoded(a, decoder), Decoded(b, decoder);
      if a == b || !I.SameLayout(x, y) then |DataPart(name, a, b, decoder)| <= 1 && forall d :: d in DataPart(name, a, b, decoder) ==> d.RawDataChanged?
      else
        I.DecodedLen(x) <= |a| && I.DecodedLen(x) <= |b|
        && DataPart(name, a, b, decoder) == TailPart(name, a, b, I.DecodedLen(x)) + FieldParts(name, I.Fields(x), I.Fields(y))
  {
    hide H.HexOf, FirstDifferenceOffset, FieldParts, TailPart, I.Fields, DecodePosition, DecodeMarket;
  }

  lemma TailIsRaw(name: string, a: Bytes, b: Bytes, n: nat)
    requires n <= |a| && n <= |b|
    ensures |TailPart(name, a, b, n)| <= 1 && forall d :: d in TailPart(name, a, b, n) ==> d.RawDataChanged?
  {
  }

  lemma DataOnceEach(name: string, a: Bytes, b: Bytes, decoder: FieldDecoder)
    ensures OnceEach(DataPart(name, a, b, decoder)) && AboutData(DataPart(name, a, b, decoder))
  {
    var x, y := Decoded(a, decoder), Decoded(b, decoder);
    DataShape(name, a, b, decoder);
    if a == b || !I.SameLayout(x, y) {
      AtMostOne(DataPart(name, a, b, decoder));
      assert AboutData(DataPart(name, a, b, decoder)) by {
        hide DataPart;
      }
      hide *;
    } else {
      LayoutNames(x, y);
      StructNamesDiffer(x);
      hide *;
      FieldsOnceEach(name, I.Fields(x), I.Fields(y));
      TailIsRaw(name, a, b, I.DecodedLen(x));
      TailAndFields(TailPart(name, a, b, I.DecodedLen(x)), FieldParts(name, I.Fields(x), I.Fields(y)), I.Fields(x));
    }
  }

  lemma MetadataOnceEach(name: string, a: AccountSnapshot, b: AccountSnapshot)
    ensures OnceEach(MetadataPart(name, a, b))
    ensures forall d :: d in MetadataPart(name, a, b) ==> d.FieldChanged? && d.field in {"owner", "executable", "rent_epoch"}
  {
    assert "executable"[0] != "rent_epoch"[0];
    hide Decimal, BoolText;
  }

  lemma AccountOnceEach(name: string, a: Option<AccountSnapshot>, b: Option<AccountSnapshot>, decoder: FieldDecoder)
    ensures OnceEach(AccountPart(name, a, b, decoder))
  {
    if a.Some? && b.Some? {
      var x, y := a.value, b.value;
      var balance, metadata, data := BalancePart(name, x, y), MetadataPart(name, x, y), DataPart(name, x.data, y.data, decoder);
      assert |balance| <= 1 && forall d :: d in balance ==> d.BalanceChanged?;
      assert AccountPart(name, a, b, decoder) == balance + metadata + data;
      MetadataOnceEach(name, x, y);
      DataOnceEach(name, x.data, y.data, decoder);
      hide AccountPart, BalancePart, MetadataPart, DataPart, OnceEach;
      AtMostOne(balance);
      assert Unrelated(balance, metadata) && Unrelated(balance + metadata, data);
      hide Unrelated;
      OnceEachAppend(balance, metadata);
      OnceEachAppend(balance + metadata, data);
    } else {
      AtMostOne(AccountPart(name, a, b, decoder));
    }
  }

  lemma {:induction false} AccountsOnceEach(names: seq<string>, m1: map<string, AccountSnapshot>, m2: map<string, AccountSnapshot>, decoder: FieldDecoder)
    requires forall i, j :: 0 <= i < j < |names| ==> names[i] != names[j]
    ensures OnceEach(AccountsPart(names, m1, m2, decoder))
  {
    if names == [] {
      AtMostOne(AccountsPart(names, m1, m2, decoder));
    } else {
      var n, rest := names[0], names[1..];
      var head, tail := AccountPart(n, Lookup(m1, n), Lookup(m2, n), decoder), AccountsPart(rest, m1, m2, decoder);
      AccountOnceEach(n, Lookup(m1, n), Lookup(m2, n), decoder);
      AccountsOnceEach(rest, m1, m2, decoder);
      assert n !in rest;
      forall x, y | x in head && y in tail ensures !SameSubject(x, y) {
        AccountMembers(n, Lookup(m1, n), Lookup(m2, n), decoder, x);
        AccountsMembers(rest, m1, m2, decoder, y);
      }
      hide AccountPart, OnceEach, SameSubject;
      OnceEachAppend(head, tail);
    }
  }

  lemma LabelsDiffer(s: set<string>)
    ensures forall i, j :: 0 <= i < j < |AscendingStrings(s)| ==> AscendingStrings(s)[i] != AscendingStrings(s)[j]
  {
    StringsTotal();
    AscendingFacts(CompareStrings, s);
    var r := AscendingStrings(s);
    hide Ascending, CompareStrings, AscendingStrings;
    forall i, j | 0 <= i < j < |r| ensures r[i] != r[j] {
      assert CompareStrings(r[i], r[j]) < 0;
      assert CompareStrings(r[i], r[j]) == 0 <==> r[i] == r[j];
    }
  }

  /** And it lists each of them once: no two entries are about one outcome, one balance, one field. */
  lemma DifferencesOnceEach(v1: ExecutionResult, v2: ExecutionResult, decoder: FieldDecoder)
    ensures OnceEach(Differences(v1, v2, decoder))
  {
    var keys := v1.accounts.Keys + v2.accounts.Keys;
    LabelsDiffer(keys);
    var outcome, accounts := OutcomePart(v1, v2), AccountsPart(AscendingStrings(keys), v1.accounts, v2.accounts, decoder);
    var calls, compute := CpiPart(v1, v2), ComputePart(v1, v2);
    AccountsOnceEach(AscendingStrings(keys), v1.accounts, v2.accounts, decoder);
    assert Differences(v1, v2, decoder) == outcome + accounts + calls + compute;
    assert |outcome| <= 1 && forall d :: d in outcome ==> d.SuccessChanged?;
    assert |calls| <= 1 && forall d :: d in calls ==> d.CpiChanged?;
    assert |compute| <= 1 && forall d :: d in compute ==> d.ComputeChanged?;
    forall d | d in accounts ensures OfAccount(d) {
      AccountsMembers(AscendingStrings(keys), v1.accounts, v2.accounts, decoder, d);
    }
    hide *;
    BlocksOnceEach(outcome, accounts, calls, compute);
  }

  lemma BlocksOnceEach(outcome: seq<Difference>, accounts: seq<Difference>, calls: seq<Difference>, compute: seq<Difference>)
    requires |outcome| <= 1 && forall d :: d in outcome ==> d.SuccessChanged?
    requires OnceEach(accounts) && forall d :: d in accounts ==> OfAccount(d)
    requires |calls| <= 1 && forall d :: d in calls ==> d.CpiChanged?
    requires |compute| <= 1 && forall d :: d in compute ==> d.ComputeChanged?
    ensures OnceEach(outcome + accounts + calls + compute)
  {
    hide OnceEach;
    AtMostOne(outcome);
    AtMostOne(calls);
    AtMostOne(compute);
    assert Unrelated(outcome, accounts) && Unrelated(outcome + accounts, calls) && Unrelated(outcome + accounts + calls, compute);
    hide Unrelated;
    OnceEachAppend(outcome, accounts);
    OnceEachAppend(outcome + accounts, calls);
    OnceEachAppend(outcome + accounts + calls, compute);
  }

  lemma NumberIsTrue(v1: ExecutionResult, v2: ExecutionResult, name: string, field: string, x: u64, y: u64, d: Difference)
    requires name in v1.accounts && name in v2.accounts
    requires HoldsPosition(v1.accounts[name].data) && HoldsPosition(v2.accounts[name].data)
    requires PositionNumber(v1.accounts[name].data, field) == Some(x) && PositionNumber(v2.accounts[name].data, field) == Some(y)
    requires NumberMoved(name, field, x, y, d)
    ensures Reported(v1, v2, FixtureLending, d) && field != "owner"
  {
    hide NumberText, Remark, DeltaIs, U64At, U16At;
  }

  /** In particular, when an account holds a position on both sides and a numeric field of it moved from `x` to
      `y`, exactly one entry speaks of that field, with `x` first and `y` second and their difference. */
  lemma NumberIsReportedOnce(v1: ExecutionResult, v2: ExecutionResult, name: string, field: string, x: u64, y: u64) returns (i: nat)
    requires name in v1.accounts && name in v2.accounts
    requires HoldsPosition(v1.accounts[name].data) && HoldsPosition(v2.accounts[name].data) && x != y
    requires PositionNumber(v1.accounts[name].data, field) == Some(x) && PositionNumber(v2.accounts[name].data, field) == Some(y)
    ensures var ds := Differences(v1, v2, FixtureLending);
      && i < |ds|
      && ds[i] == FieldChanged(name, field, NumberText(field, x), NumberText(field, y),
                               if -0x8000_0000_0000_0000 <= y as int - x <= 0x7FFF_FFFF_FFFF_FFFF then Some(y as int - x) else None,
                               Remark(field, x, y))
      && forall j :: 0 <= j < |ds| && j != i ==> !(ds[j].FieldChanged? && ds[j].account == name && ds[j].field == field)
  {
    var delta: Option<i64> := if -0x8000_0000_0000_0000 <= y as int - x <= 0x7FFF_FFFF_FFFF_FFFF then Some(y as int - x) else None;
    var d := FieldChanged(name, field, NumberText(field, x), NumberText(field, y), delta, Remark(field, x, y));
    DifferencesAre(v1, v2, FixtureLending, d);
    DifferencesOnceEach(v1, v2, FixtureLending);
    NumberIsTrue(v1, v2, name, field, x, y, d);
    hide Differences, NumberText, Remark, PositionNumber, Reported, HoldsPosition;
    var ds := Differences(v1, v2, FixtureLending);
    var k :| 0 <= k < |ds| && ds[k] == d;
    i := k;
    forall j | 0 <= j < |ds| && j != i ensures !(ds[j].FieldChanged? && ds[j].account == name && ds[j].field == field) {
      assert j < i ==> !SameSubject(ds[j], ds[i]);
      assert j > i ==> !SameSubject(ds[i], ds[j]);
    }
  }

  /** A comparison has a compute delta exactly when both sides report their units and these differ; it is then
      the delta of those two counters. */
  lemma ComputeDeltaMeans(fixture: Fixture, v1: ExecutionResult, v2: ExecutionResult, decoder: FieldDecoder)
    ensures var delta := DiffOf(fixture, v1, v2, decoder).ComputeDelta();
      && (delta.Some? <==> v1.computeUnits.Some? && v2.computeUnits.Some? && v1.computeUnits != v2.computeUnits)
      && (delta.Some? ==> delta.value.ComputeChanged? && ComputeReported(v1, v2, delta.value))
  {
    var ds := Differences(v1, v2, decoder);
    FirstComputeIs(ds);
    hide Differences, FirstCompute, ComputeReported;
    forall d: Difference | d.ComputeChanged? ensures d in ds <==> ComputeReported(v1, v2, d) {
      DifferencesAre(v1, v2, decoder, d);
    }
    ComputeExists(v1, v2);
  }

  lemma ComputeExists(v1: ExecutionResult, v2: ExecutionResult)
    ensures v1.computeUnits.Some? && v2.computeUnits.Some? && v1.computeUnits != v2.computeUnits <==>
      exists d: Difference :: d.ComputeChanged? && ComputeReported(v1, v2, d)
  {
    if v1.computeUnits.Some? && v2.computeUnits.Some? && v1.computeUnits != v2.computeUnits {
      var a, b := v1.computeUnits.value, v2.computeUnits.value;
      WrapIsCast(WrapI64(b as int - a), b as int - a);
      PctIsPercentage(PctBps(a, b), a, b);
      hide WrapI64, PctBps, Cast64, Percentage;
      assert ComputeReported(v1, v2, ComputeChanged(a, b, WrapI64(b as int - a), PctBps(a, b)));
    }
    hide Cast64, Percentage;
  }
}
