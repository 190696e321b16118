/** Account bytes as named fields and economic values (engine/src/interpret.rs). */
module Interpret {
  import opened Prelude
  import opened Text
  import opened Layout
  import R = Reference
  import M = Money
  import H = Hexfmt

  datatype Decoded = DecodedMarket(market: Market) | DecodedPosition(position: Position) | Opaque

  function Decode(data: Bytes): Decoded {
    if data != [] && data[0] == ACCOUNT_TAG_POSITION && |data| >= POSITION_LEN then
      DecodedPosition(DecodePosition(data[..POSITION_LEN]))
    else if data != [] && data[0] == ACCOUNT_TAG_MARKET && |data| >= MARKET_LEN then
      DecodedMarket(DecodeMarket(data[..MARKET_LEN]))
    else Opaque
  }

  /** How many leading bytes a decoded layout describes. */
  function DecodedLen(d: Decoded): nat {
    match d
    case DecodedMarket(_) => MARKET_LEN
    case DecodedPosition(_) => POSITION_LEN
    case Opaque => 0
  }

  predicate SameLayout(a: Decoded, b: Decoded) {
    (a.DecodedMarket? && b.DecodedMarket?) || (a.DecodedPosition? && b.DecodedPosition?)
  }

  function FormatHealth(health: u64): string {
    if health == R.HEALTH_INFINITE then "inf (no debt)"
    else Decimal(health / R.HEALTH_SCALE) + "." + Padded(health % R.HEALTH_SCALE, 6)
  }

  function FormatSol(lamports: u64): string {
    Decimal(lamports / 1_000_000_000) + "." + Padded(lamports % 1_000_000_000, 9)
  }

  /** A health factor is written with six decimals, the one of a debt-free position in words. */
  lemma HealthIsWritten(health: u64)
    ensures health == U64_MAX ==> FormatHealth(health) == "inf (no debt)"
    ensures health < U64_MAX ==> FixedPoint(FormatHealth(health), 6, health)
  {
    R.Billion();
    FixedPointText(health / 1_000_000, health % 1_000_000, 6);
    hide Decimal, Padded, FixedPoint, Pow10;
  }

  /** Lamports are written as SOL with nine decimals. */
  lemma SolIsWritten(lamports: u64)
    ensures FixedPoint(FormatSol(lamports), 9, lamports)
  {
    R.Billion();
    FixedPointText(lamports / 1_000_000_000, lamports % 1_000_000_000, 9);
    hide Decimal, Padded, FixedPoint, Pow10;
  }

  datatype FieldValue = Unsigned(value: u64) | Text(text: string) | Health(health: u64) {
    function Render(): string {
      match this
      case Unsigned(v) => Decimal(v)
      case Text(t) => t
      case Health(h) => FormatHealth(h)
    }

    function Numeric(): Option<int> {
      match this
      case Unsigned(v) => Some(v)
      case Text(_) => None
      case Health(h) => Some(h)
    }
  }

  /** Text of an address. The engine writes base 58; base 16 stands in for it here, since only
      the fact that distinct addresses have distinct texts matters. */
  function AddressText(a: Address): string {
    H.HexOf(a)
  }

  function PositionFields(p: Position): seq<(string, FieldValue)> {
    [ ("owner", Text(AddressText(p.owner))),
      ("market", Text(AddressText(p.market))),
      ("collateral_amount", Unsigned(p.collateralAmount)),
      ("debt_amount", Unsigned(p.debtAmount)),
      ("collateral_price", Unsigned(p.collateralPrice)),
      ("liquidation_threshold_bps", Unsigned(p.liquidationThresholdBps)),
      ("max_ltv_bps", Unsigned(p.maxLtvBps)),
      ("health_factor", Health(p.healthFactor)),
      ("last_update_slot", Unsigned(p.lastUpdateSlot)) ]
  }

  function MarketFields(m: Market): seq<(string, FieldValue)> {
    [ ("authority", Text(AddressText(m.authority))),
      ("vault", Text(AddressText(m.vault))),
      ("collateral_price", Unsigned(m.collateralPrice)),
      ("liquidation_threshold_bps", Unsigned(m.liquidationThresholdBps)),
      ("max_ltv_bps", Unsigned(m.maxLtvBps)),
      ("position_count", Unsigned(m.positionCount)) ]
  }

  /** Named fields of a decoded account, in a stable order. The version byte is not among them. */
  function Fields(d: Decoded): seq<(string, FieldValue)> {
    match d
    case DecodedPosition(p) => PositionFields(p)
    case DecodedMarket(m) => MarketFields(m)
    case Opaque => []
  }

  function Explain(field: string, before: FieldValue, after: FieldValue): Option<string> {
    if field == "health_factor" && before.Health? && after.Health? then
      var was, now := R.IsLiquidatable(before.health), R.IsLiquidatable(after.health);
      if was != now then
        Some(if now then "position crosses below the liquidation threshold"
             else "position rises above the liquidation threshold")
      else if after.health < before.health then Some("position is closer to liquidation")
      else Some("position is further from liquidation")
    else if field == "collateral_amount" && before.Unsigned? && after.Unsigned? then
      Some("collateral differs by " + SignedDecimal(after.value - before.value) + " lamports for the same instruction")
    else if field == "debt_amount" && before.Unsigned? && after.Unsigned? then
      Some("recorded debt differs by " + SignedDecimal(after.value - before.value) + " micro-USD")
    else None
  }

  // ---- what the compared fields pin down ----------------------------------------------------

  lemma PositionFieldsAgree(a: Position, b: Position)
    ensures PositionFields(a) == PositionFields(b) <==> b == a.(tag := b.tag, version := b.version)
  {
    if PositionFields(a) == PositionFields(b) {
      var x, y := PositionFields(a), PositionFields(b);
      assert x[0] == y[0] && x[1] == y[1] && x[2] == y[2] && x[3] == y[3] && x[4] == y[4];
      assert x[5] == y[5] && x[6] == y[6] && x[7] == y[7] && x[8] == y[8];
      H.HexInjective(a.owner, b.owner);
      H.HexInjective(a.market, b.market);
    }
  }

  lemma MarketFieldsAgree(a: Market, b: Market)
    ensures MarketFields(a) == MarketFields(b) <==> b == a.(tag := b.tag, version := b.version)
  {
    if MarketFields(a) == MarketFields(b) {
      var x, y := MarketFields(a), MarketFields(b);
      assert x[0] == y[0] && x[1] == y[1] && x[2] == y[2] && x[3] == y[3] && x[4] == y[4] && x[5] == y[5];
      H.HexInjective(a.authority, b.authority);
      H.HexInjective(a.vault, b.vault);
    }
  }

  /** Equality everywhere except possibly in the version byte. */
  predicate EqualUpToVersion(a: Bytes, b: Bytes) {
    |a| == |b| && |a| >= 2 && a[0] == b[0] && a[2..] == b[2..]
  }

  lemma PositionBytesAgree(a: Bytes, b: Bytes)
    requires |a| == |b| == POSITION_LEN
    ensures EqualUpToVersion(a, b) <==>
      a[0] == b[0] && PositionFields(DecodePosition(a)) == PositionFields(DecodePosition(b))
  {
    var p, q := DecodePosition(a), DecodePosition(b);
    PositionFieldsAgree(p, q);
    var patched := a[1 := b[1]];
    PositionPatch(a, b[1]);
    if a[0] == b[0] && PositionFields(p) == PositionFields(q) {
      PositionCodec(patched, q);
      PositionCodec(b, q);
      assert patched[2..] == a[2..];
    }
    if EqualUpToVersion(a, b) {
      assert patched == b by {
        assert forall i :: 2 <= i < |a| ==> a[i] == a[2..][i - 2] && b[i] == b[2..][i - 2];
      }
    }
    hide DecodePosition, EncodePosition, PositionFields;
  }

  lemma PositionPatch(a: Bytes, v: u8)
    requires |a| == POSITION_LEN
    ensures DecodePosition(a[1 := v]) == DecodePosition(a).(version := v)
  {
  }

  lemma MarketBytesAgree(a: Bytes, b: Bytes)
    requires |a| == |b| == MARKET_LEN
    ensures EqualUpToVersion(a, b) <==>
      a[0] == b[0] && MarketFields(DecodeMarket(a)) == MarketFields(DecodeMarket(b))
  {
    var p, q := DecodeMarket(a), DecodeMarket(b);
    MarketFieldsAgree(p, q);
    var patched := a[1 := b[1]];
    MarketPatch(a, b[1]);
    if a[0] == b[0] && MarketFields(p) == MarketFields(q) {
      MarketCodec(patched, q);
      MarketCodec(b, q);
      assert patched[2..] == a[2..];
    }
    if EqualUpToVersion(a, b) {
      assert patched == b by {
        assert forall i :: 2 <= i < |a| ==> a[i] == a[2..][i - 2] && b[i] == b[2..][i - 2];
      }
    }
    hide DecodeMarket, EncodeMarket, MarketFields;
  }

  lemma MarketPatch(a: Bytes, v: u8)
    requires |a| == MARKET_LEN
    ensures DecodeMarket(a[1 := v]) == DecodeMarket(a).(version := v)
  {
  }

  lemma UpToVersionSplits(a: Bytes, b: Bytes, n: nat)
    requires 2 <= n <= |a| && n <= |b|
    ensures EqualUpToVersion(a, b) <==> EqualUpToVersion(a[..n], b[..n]) && a[n..] == b[n..]
  {
  }

  /** For two accounts of one layout, comparing the named fields and the bytes past the struct
      is exactly comparing the bytes, the version byte aside. */
  lemma FieldsAndTailDecide(a: Bytes, b: Bytes)
    requires SameLayout(Decode(a), Decode(b))
    ensures var n := DecodedLen(Decode(a));
      && 2 <= n <= |a| && n <= |b|
      && (EqualUpToVersion(a, b) <==> Fields(Decode(a)) == Fields(Decode(b)) && a[n..] == b[n..])
  {
    var n := DecodedLen(Decode(a));
    UpToVersionSplits(a, b, n);
    if Decode(a).DecodedPosition? {
      PositionBytesAgree(a[..n], b[..n]);
    } else {
      MarketBytesAgree(a[..n], b[..n]);
    }
    hide PositionFields, MarketFields, DecodePosition, DecodeMarket, EqualUpToVersion;
  }

  // ---- economics ------------------------------------------------------------------------------

  datatype PositionEconomics = PositionEconomics(
    collateralAmount: u64, collateralPriceUsd: u128, debtAmount: u64,
    collateralValueUsd: u128, debtValueUsd: u128, netValueUsd: i128,
    healthFactor: u64, healthDisplay: string, liquidatable: bool, collateralDisplay: string)

  /** Valuation of a position. The signed difference always fits, so the engine's panic on an
      unrepresentable net value cannot happen here. */
  function Economics(p: Position): (e: PositionEconomics)
    ensures e.netValueUsd == e.collateralValueUsd - e.debtValueUsd
  {
    var collateral := R.CollateralValue(p.collateralAmount, p.collateralPrice);
    var debt := R.DebtValue(p.debtAmount);
    R.DebtIsPegged(p.debtAmount);
    M.SignedSubIsExact(collateral, debt, collateral - debt);
    PositionEconomics(
      p.collateralAmount, p.collateralPrice, p.debtAmount,
      collateral, debt, M.CheckedSignedSub(collateral, debt).value,
      p.healthFactor, FormatHealth(p.healthFactor), R.IsLiquidatable(p.healthFactor),
      FormatSol(p.collateralAmount) + " SOL")
  }

  function EconomicsOf(data: Bytes): Option<PositionEconomics> {
    match Decode(data)
    case DecodedPosition(p) => Some(Economics(p))
    case _ => None
  }

  function InstructionName(data: Bytes): string {
    if data == [] then "unknown"
    else if data[0] == 0 then "initialize_market"
    else if data[0] == 1 then "create_position"
    else if data[0] == 2 then "deposit_collateral"
    else if data[0] == 3 then "borrow"
    else if data[0] == 4 then "repay"
    else if data[0] == 5 then "withdraw_collateral"
    else if data[0] == 6 then "liquidate"
    else if data[0] == 7 then "refresh_position"
    else if data[0] == 8 then "set_price"
    else "unknown"
  }

  /** The economics of an account are read off its bytes: there are any exactly when it is long enough and
      tagged as a position, and then they are these. */
  lemma EconomicsAreRead(data: Bytes)
    ensures EconomicsOf(data).Some? <==> |data| >= 110 && data[0] == 2
    ensures EconomicsOf(data).Some? ==>
      var e, price := EconomicsOf(data).value, U64At(data, 82);
      && e.collateralAmount == U64At(data, 66) && e.debtAmount == U64At(data, 74) && e.collateralPriceUsd == price
      && e.collateralValueUsd * 1_000_000_000 <= e.collateralAmount * price < (e.collateralValueUsd + 1) * 1_000_000_000
      && e.debtValueUsd == e.debtAmount
      && e.netValueUsd == e.collateralValueUsd - e.debtValueUsd
      && e.healthFactor == U64At(data, 94) && (e.liquidatable <==> e.healthFactor < 1_000_000)
      && e.healthDisplay == FormatHealth(e.healthFactor) && e.collateralDisplay == FormatSol(e.collateralAmount) + " SOL"
  {
    if |data| >= 110 && data[0] == 2 {
      PositionNumbers(data);
      var p := DecodePosition(data[..POSITION_LEN]);
      assert Decode(data) == DecodedPosition(p);
      R.DebtIsPegged(p.debtAmount);
      hide U64At, U16At, R.DebtValue, FormatHealth, FormatSol, Decode, DecodePosition;
    }
  }

  /** A position's numbers, by their place in the account. */
  lemma PositionNumbers(data: Bytes)
    requires |data| >= 110
    ensures var p := DecodePosition(data[..110]);
      && p.collateralAmount == U64At(data, 66) && p.debtAmount == U64At(data, 74) && p.collateralPrice == U64At(data, 82)
      && p.liquidationThresholdBps == U16At(data, 90) && p.maxLtvBps == U16At(data, 92)
      && p.healthFactor == U64At(data, 94) && p.lastUpdateSlot == U64At(data, 102)
      && p.owner == data[2..34] && p.market == data[34..66]
  {
    var b := data[..110];
    assert b[66..74] == data[66..74] && b[74..82] == data[74..82] && b[82..90] == data[82..90];
    assert b[90..92] == data[90..92] && b[92..94] == data[92..94] && b[94..102] == data[94..102] && b[102..110] == data[102..110];
    assert b[2..34] == data[2..34] && b[34..66] == data[34..66];
    hide FromLe;
  }

  /** A market's, likewise. */
  lemma MarketNumbers(data: Bytes)
    requires |data| >= 86
    ensures var m := DecodeMarket(data[..86]);
      && m.collateralPrice == U64At(data, 66)
      && m.liquidationThresholdBps == U16At(data, 74) && m.maxLtvBps == U16At(data, 76)
      && m.positionCount == U64At(data, 78)
      && m.authority == data[2..34] && m.vault == data[34..66]
  {
    var b := data[..86];
    assert b[66..74] == data[66..74] && b[74..76] == data[74..76] && b[76..78] == data[76..78] && b[78..86] == data[78..86];
    assert b[2..34] == data[2..34] && b[34..66] == data[34..66];
    hide FromLe;
  }

  /** The instructions of the program in the order of their declaration, which is the order of their tags. */
  const INSTRUCTIONS: seq<string> := [
    "initialize_market", "create_position", "deposit_collateral", "borrow", "repay",
    "withdraw_collateral", "liquidate", "refresh_position", "set_price"]

  /** A payload is named after its tag, and two payloads have one name exactly when they carry the same known
      tag, or neither does. */
  lemma InstructionNamesMean(a: Bytes, b: Bytes)
    ensures InstructionName(a) == if a != [] && a[0] < |INSTRUCTIONS| then INSTRUCTIONS[a[0]] else "unknown"
    ensures InstructionName(a) == InstructionName(b) <==>
      if a != [] && a[0] <= 8 then b != [] && b[0] == a[0] else b == [] || b[0] > 8
  {
    assert "liquidate"[0] != "set_price"[0];
  }
}
