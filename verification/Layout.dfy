/** Byte layouts of the lending accounts (interface/src/lib.rs): fixed-size fields in
    declaration order, integers little-endian, as Borsh writes them. */
module Layout {
  import opened Prelude

  type Bytes = seq<u8>

  const MARKET_LEN: nat := 86
  const POSITION_LEN: nat := 110
  const ACCOUNT_TAG_MARKET: u8 := 1
  const ACCOUNT_TAG_POSITION: u8 := 2

  type Address = a: Bytes | |a| == 32 witness seq(32, _ => 0)

  datatype Market = Market(
    tag: u8, version: u8, authority: Address, vault: Address,
    collateralPrice: u64, liquidationThresholdBps: u16, maxLtvBps: u16, positionCount: u64)

  datatype Position = Position(
    tag: u8, version: u8, owner: Address, market: Address,
    collateralAmount: u64, debtAmount: u64, collateralPrice: u64,
    liquidationThresholdBps: u16, maxLtvBps: u16, healthFactor: u64, lastUpdateSlot: u64)

  // ---- integers ---------------------------------------------------------------------------

  function Pow256(n: nat): nat {
    if n == 0 then 1 else 256 * Pow256(n - 1)
  }

  function ToLe(v: nat, n: nat): (r: Bytes)
    ensures |r| == n
  {
    if n == 0 then [] else [v % 256] + ToLe(v / 256, n - 1)
  }

  function FromLe(b: Bytes): nat {
    if b == [] then 0 else b[0] + 256 * FromLe(b[1..])
  }

  lemma {:induction false} LeRoundTrip(v: nat, n: nat)
    requires v < Pow256(n)
    ensures FromLe(ToLe(v, n)) == v
  {
    if n > 0 { LeRoundTrip(v / 256, n - 1); }
  }

  lemma {:induction false} LeBytesRoundTrip(b: Bytes)
    ensures ToLe(FromLe(b), |b|) == b
    ensures FromLe(b) < Pow256(|b|)
  {
    if b != [] {
      LeBytesRoundTrip(b[1..]);
      assert b == [b[0]] + b[1..];
    }
  }

  lemma IntegerWidths()
    ensures Pow256(2) == 0x1_0000 && Pow256(8) == U64_MAX + 1
  {
  }

  function ToU64(v: u64): (r: Bytes)
    ensures |r| == 8
  {
    ToLe(v, 8)
  }

  function ToU16(v: u16): (r: Bytes)
    ensures |r| == 2
  {
    ToLe(v, 2)
  }

  function U64At(b: Bytes, at: nat): u64
    requires at + 8 <= |b|
  {
    IntegerWidths();
    LeBytesRoundTrip(b[at..at + 8]);
    FromLe(b[at..at + 8])
  }

  function U16At(b: Bytes, at: nat): u16
    requires at + 2 <= |b|
  {
    IntegerWidths();
    LeBytesRoundTrip(b[at..at + 2]);
    FromLe(b[at..at + 2])
  }

  lemma U64Reads(b: Bytes, at: nat, v: u64)
    requires at + 8 <= |b|
    ensures b[at..at + 8] == ToU64(v) <==> U64At(b, at) == v
  {
    IntegerWidths();
    LeRoundTrip(v, 8);
    LeBytesRoundTrip(b[at..at + 8]);
  }

  lemma U16Reads(b: Bytes, at: nat, v: u16)
    requires at + 2 <= |b|
    ensures b[at..at + 2] == ToU16(v) <==> U16At(b, at) == v
  {
    IntegerWidths();
    LeRoundTrip(v, 2);
    LeBytesRoundTrip(b[at..at + 2]);
  }

  // ---- accounts ---------------------------------------------------------------------------

  function EncodePosition(p: Position): (b: Bytes)
    ensures |b| == POSITION_LEN
  {
    [p.tag, p.version] + p.owner + p.market
    + ToU64(p.collateralAmount) + ToU64(p.debtAmount) + ToU64(p.collateralPrice)
    + ToU16(p.liquidationThresholdBps) + ToU16(p.maxLtvBps)
    + ToU64(p.healthFactor) + ToU64(p.lastUpdateSlot)
  }

  function DecodePosition(b: Bytes): Position
    requires |b| == POSITION_LEN
  {
    Position(b[0], b[1], b[2..34], b[34..66], U64At(b, 66), U64At(b, 74), U64At(b, 82),
             U16At(b, 90), U16At(b, 92), U64At(b, 94), U64At(b, 102))
  }

  function EncodeMarket(m: Market): (b: Bytes)
    ensures |b| == MARKET_LEN
  {
    [m.tag, m.version] + m.authority + m.vault
    + ToU64(m.collateralPrice) + ToU16(m.liquidationThresholdBps) + ToU16(m.maxLtvBps) + ToU64(m.positionCount)
  }

  function DecodeMarket(b: Bytes): Market
    requires |b| == MARKET_LEN
  {
    Market(b[0], b[1], b[2..34], b[34..66], U64At(b, 66), U16At(b, 74), U16At(b, 76), U64At(b, 78))
  }

  /** A 110-byte block decodes to a position exactly when encoding that position gives the block. */
  lemma PositionCodec(b: Bytes, p: Position)
    requires |b| == POSITION_LEN
    ensures DecodePosition(b) == p <==> b == EncodePosition(p)
  {
    PositionSlices(p);
    U64Reads(b, 66, p.collateralAmount);
    U64Reads(b, 74, p.debtAmount);
    U64Reads(b, 82, p.collateralPrice);
    U16Reads(b, 90, p.liquidationThresholdBps);
    U16Reads(b, 92, p.maxLtvBps);
    U64Reads(b, 94, p.healthFactor);
    U64Reads(b, 102, p.lastUpdateSlot);
    PositionCut(b);
    PositionCut(EncodePosition(p));
    hide EncodePosition, U64At, U16At;
  }

  lemma PositionSlices(p: Position)
    ensures var b := EncodePosition(p);
      && b[0] == p.tag && b[1] == p.version && b[2..34] == p.owner && b[34..66] == p.market
      && b[66..74] == ToU64(p.collateralAmount) && b[74..82] == ToU64(p.debtAmount)
      && b[82..90] == ToU64(p.collateralPrice) && b[90..92] == ToU16(p.liquidationThresholdBps)
      && b[92..94] == ToU16(p.maxLtvBps) && b[94..102] == ToU64(p.healthFactor)
      && b[102..110] == ToU64(p.lastUpdateSlot)
  {
  }

  lemma PositionCut(b: Bytes)
    requires |b| == POSITION_LEN
    ensures b == [b[0], b[1]] + b[2..34] + b[34..66] + b[66..74] + b[74..82] + b[82..90]
                 + b[90..92] + b[92..94] + b[94..102] + b[102..110]
  {
  }

  lemma MarketCodec(b: Bytes, m: Market)
    requires |b| == MARKET_LEN
    ensures DecodeMarket(b) == m <==> b == EncodeMarket(m)
  {
    MarketSlices(m);
    U64Reads(b, 66, m.collateralPrice);
    U16Reads(b, 74, m.liquidationThresholdBps);
    U16Reads(b, 76, m.maxLtvBps);
    U64Reads(b, 78, m.positionCount);
    MarketCut(b);
    MarketCut(EncodeMarket(m));
    hide EncodeMarket, U64At, U16At;
  }

  lemma MarketSlices(m: Market)
    ensures var b := EncodeMarket(m);
      && b[0] == m.tag && b[1] == m.version && b[2..34] == m.authority && b[34..66] == m.vault
      && b[66..74] == ToU64(m.collateralPrice) && b[74..76] == ToU16(m.liquidationThresholdBps)
      && b[76..78] == ToU16(m.maxLtvBps) && b[78..86] == ToU64(m.positionCount)
  {
  }

  lemma MarketCut(b: Bytes)
    requires |b| == MARKET_LEN
    ensures b == [b[0], b[1]] + b[2..34] + b[34..66] + b[66..74] + b[74..76] + b[76..78] + b[78..86]
  {
  }
}
