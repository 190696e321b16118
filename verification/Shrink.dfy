/** Smaller variants of a fixture, and what it takes for one to reproduce a regression
    (engine/src/shrink.rs:59-128). */
module Shrink {
  import opened Prelude
  import opened Layout
  import opened Types
  import opened Impact
  import opened Totals
  import opened Cluster
  import D = Diff
  import R = Reference

  datatype ShrinkConfig = ShrinkConfig(maxProbes: nat, collateralGranularity: u64, debtGranularity: u64)

  /** Rent floor of an account without data. */
  const VAULT_FLOOR: u64 := 890_880

  const VAULT_LABEL: string := "vault"

  function Quantize(value: u64, granularity: u64): u64 {
    if granularity == 0 then value
    else
      R.QuotientIffProduct(value, granularity, value / granularity);
      value / granularity * granularity
  }

  /** The largest multiple of the granularity that does not exceed the value. */
  lemma QuantizeIsFloor(value: u64, granularity: u64)
    requires granularity > 0
    ensures Quantize(value, granularity) % granularity == 0
    ensures Quantize(value, granularity) <= value < Quantize(value, granularity) + granularity
    ensures Quantize(value, granularity) / granularity == value / granularity
  {
    var q := value / granularity;
    assert value == q * granularity + value % granularity;
    R.QuotientIffProduct(value, granularity, q);
    MultipleDivides(q, granularity);
  }

  lemma MultipleDivides(q: nat, g: nat)
    requires g > 0
    ensures q * g / g == q && q * g % g == 0
  {
    R.QuotientIffProduct(q * g, g, q);
    R.QuotientIffProduct(q * g, g, q + 1);
    var k := q * g / g;
    assert q * g == k * g + q * g % g;
    assert (q + 1) * g == q * g + g;
  }

  /** The position behind the first account labelled as one. Its tag is not looked at. */
  function ReadPosition(fixture: Fixture): Option<Position> {
    match fixture.Account(POSITION_LABEL)
    case None => None
    case Some(named) =>
      if |named.account.data| < POSITION_LEN then None else Some(DecodePosition(named.account.data[..POSITION_LEN]))
  }

  /** Every account labelled as a position can hold one. */
  ghost predicate Holdable(accounts: seq<NamedAccount>) {
    forall a :: a in accounts && a.name == POSITION_LABEL ==> |a.account.data| >= POSITION_LEN
  }

  /** Once a position is found, the engine's slice write aborts on an account that cannot hold one. */
  ghost predicate Editable(fixture: Fixture) {
    ReadPosition(fixture).Some? ==> Holdable(fixture.accounts)
  }

  function EditedPosition(p: Position, collateral: u64, debt: u64): Position {
    p.(collateralAmount := collateral, debtAmount := debt,
       healthFactor := R.HealthFactor(collateral, debt, p.collateralPrice, p.liquidationThresholdBps))
  }

  function EditAccount(a: NamedAccount, p: Position, collateral: u64): Option<NamedAccount>
    requires a.name == POSITION_LABEL ==> |a.account.data| >= POSITION_LEN
  {
    if a.name == POSITION_LABEL then
      Some(a.(account := a.account.(data := EncodePosition(p) + a.account.data[POSITION_LEN..])))
    else if a.name == VAULT_LABEL then
      if VAULT_FLOOR + collateral > U64_MAX then None
      else Some(a.(account := a.account.(lamports := VAULT_FLOOR + collateral)))
    else Some(a)
  }

  /** Every account edited, or nothing if one vault balance would overflow. */
  function EditAll(accounts: seq<NamedAccount>, p: Position, collateral: u64): Option<seq<NamedAccount>>
    requires Holdable(accounts)
  {
    if accounts == [] then Some([])
    else
      var last := accounts[|accounts| - 1];
      match (EditAll(accounts[..|accounts| - 1], p, collateral), EditAccount(last, p, collateral))
      case (Some(done), Some(a)) => Some(done + [a])
      case _ => None
  }

  function VariantOf(base: Fixture, collateral: u64, debt: u64): Option<Fixture>
    requires Editable(base)
  {
    match ReadPosition(base)
    case None => None
    case Some(p) =>
      match EditAll(base.accounts, EditedPosition(p, collateral, debt), collateral)
      case None => None
      case Some(accounts) => Some(base.(accounts := accounts))
  }

  lemma {:induction false} NoEditFromNone(accounts: seq<NamedAccount>, p: Position, collateral: u64, n: nat)
    requires Holdable(accounts)
    requires n <= |accounts| && EditAll(accounts[..n], p, collateral) == None
    ensures EditAll(accounts, p, collateral) == None
  {
    if n < |accounts| {
      assert accounts[..|accounts| - 1][..n] == accounts[..n];
      NoEditFromNone(accounts[..|accounts| - 1], p, collateral, n);
    } else {
      assert accounts[..n] == accounts;
    }
  }

  /** Overwrite a position's struct, or a vault's balance; leave any other account alone. */
  method EditOne(account: NamedAccount, position: Position, encoded: Bytes, collateral: u64) returns (r: Option<NamedAccount>)
    requires account.name == POSITION_LABEL ==> |account.account.data| >= POSITION_LEN
    requires encoded == EncodePosition(position)
    ensures r == EditAccount(account, position, collateral)
  {
    var a := account;
    if a.name == POSITION_LABEL {
      a := a.(account := a.account.(data := encoded + a.account.data[|encoded|..]));
    } else if a.name == VAULT_LABEL {
      if VAULT_FLOOR + collateral > U64_MAX {
        return None;
      }
      a := a.(account := a.account.(lamports := VAULT_FLOOR + collateral));
    }
    r := Some(a);
  }

  /** Build a variant: a copy of the base whose accounts are edited one by one. */
  method Variant(base: Fixture, collateral: u64, debt: u64) returns (r: Option<Fixture>)
    requires Editable(base)
    ensures r == VariantOf(base, collateral, debt)
  {
    var original := ReadPosition(base);
    if original == None {
      return None;
    }
    var position := EditedPosition(original.value, collateral, debt);
    var encoded := EncodePosition(position);
    var accounts := base.accounts;
    var i := 0;
    while i < |accounts|
      invariant 0 <= i <= |accounts| == |base.accounts|
      invariant EditedTo(base.accounts, accounts, i, position, collateral)
    {
      hide *;
      EditedAt(base.accounts, accounts, i, position, collateral);
      var edited := EditOne(accounts[i], position, encoded, collateral);
      if edited == None {
        return None;
      }
      accounts := accounts[i := edited.value];
      i := i + 1;
    }
    assert base.accounts[..i] == base.accounts && accounts[..i] == accounts;
    hide EditAll, EditAccount, EditedPosition, EncodePosition;
    r := Some(base.(accounts := accounts));
  }

  /** The first `i` accounts are edited, the others are as they were. */
  ghost predicate EditedTo(original: seq<NamedAccount>, accounts: seq<NamedAccount>, i: nat, p: Position, collateral: u64) {
    && Holdable(original) && i <= |accounts| == |original|
    && accounts[i..] == original[i..]
    && EditAll(original[..i], p, collateral) == Some(accounts[..i])
  }

  lemma EditedAt(original: seq<NamedAccount>, accounts: seq<NamedAccount>, i: nat, p: Position, collateral: u64)
    requires EditedTo(original, accounts, i, p, collateral) && i < |accounts|
    ensures accounts[i].name == POSITION_LABEL ==> |accounts[i].account.data| >= POSITION_LEN
    ensures var edited := EditAccount(accounts[i], p, collateral);
      && (edited == None ==> EditAll(original, p, collateral) == None)
      && (edited.Some? ==> EditedTo(original, accounts[i := edited.value], i + 1, p, collateral))
  {
    EditStep(original, p, collateral, i);
    assert accounts[i] == accounts[i..][0] == original[i..][0] == original[i] && accounts[i] in original;
    assert accounts[i + 1..] == accounts[i..][1..] == original[i..][1..] == original[i + 1..];
    hide EditAll, EditAccount;
    var edited := EditAccount(accounts[i], p, collateral);
    if edited == None {
      NoEditFromNone(original, p, collateral, i + 1);
    } else {
      var next := accounts[i := edited.value];
      assert next[..i + 1] == accounts[..i] + [edited.value] && next[i + 1..] == accounts[i + 1..];
    }
  }

  lemma EditStep(accounts: seq<NamedAccount>, p: Position, collateral: u64, i: nat)
    requires Holdable(accounts)
    requires i < |accounts|
    ensures EditAll(accounts[..i + 1], p, collateral) ==
      match (EditAll(accounts[..i], p, collateral), EditAccount(accounts[i], p, collateral))
      case (Some(done), Some(a)) => Some(done + [a])
      case _ => None
  {
    assert accounts[..i + 1][..i] == accounts[..i];
    hide EditAccount;
  }

  // ---- what an edit changes, and what it does not --------------------------------------------------------

  lemma {:induction false} EditPointwise(accounts: seq<NamedAccount>, p: Position, collateral: u64)
    requires Holdable(accounts)
    ensures var r := EditAll(accounts, p, collateral);
      && (r.Some? <==> forall a :: a in accounts ==> EditAccount(a, p, collateral).Some?)
      && (r.Some? ==> |r.value| == |accounts| && forall i :: 0 <= i < |accounts| ==> EditAccount(accounts[i], p, collateral) == Some(r.value[i]))
  {
    if accounts != [] {
      var init, last := accounts[..|accounts| - 1], accounts[|accounts| - 1];
      EditPointwise(init, p, collateral);
      assert forall a :: a in accounts <==> a in init || a == last;
      hide EditAccount;
    }
  }

  /** The vault balance is the only thing that can stop an edit. */
  lemma VariantExistsWhen(base: Fixture, collateral: u64, debt: u64)
    requires Editable(base)
    ensures VariantOf(base, collateral, debt).Some? <==>
      && ReadPosition(base).Some?
      && ((exists a :: a in base.accounts && a.name == VAULT_LABEL) ==> VAULT_FLOOR + collateral <= U64_MAX)
  {
    if ReadPosition(base).Some? {
      var p := EditedPosition(ReadPosition(base).value, collateral, debt);
      EditPointwise(base.accounts, p, collateral);
      assert forall a | a in base.accounts ::
        EditAccount(a, p, collateral) == None <==> a.name == VAULT_LABEL && VAULT_FLOOR + collateral > U64_MAX;
      hide EncodePosition, EditedPosition, ReadPosition, EditAll;
    }
  }

  /** An account of the variant differs from its original only where the edit says so. */
  ghost predicate EditedOnly(a: NamedAccount, b: NamedAccount, p: Position, collateral: u64) {
    && b.name == a.name && b.address == a.address
    && b.account.owner == a.account.owner && b.account.executable == a.account.executable
    && b.account.rentEpoch == a.account.rentEpoch
    && (a.name != VAULT_LABEL ==> b.account.lamports == a.account.lamports)
    && (a.name == VAULT_LABEL ==> b.account.lamports == VAULT_FLOOR + collateral)
    && (a.name != POSITION_LABEL ==> b.account.data == a.account.data)
    && (a.name == POSITION_LABEL ==>
          |b.account.data| == |a.account.data| >= POSITION_LEN
          && DecodePosition(b.account.data[..POSITION_LEN]) == p
          && b.account.data[POSITION_LEN..] == a.account.data[POSITION_LEN..])
  }

  lemma EditIsLocal(a: NamedAccount, p: Position, collateral: u64)
    requires a.name == POSITION_LABEL ==> |a.account.data| >= POSITION_LEN
    requires EditAccount(a, p, collateral).Some?
    ensures EditedOnly(a, EditAccount(a, p, collateral).value, p, collateral)
  {
    PositionCodec(EncodePosition(p), p);
    var b := EditAccount(a, p, collateral).value;
    hide EncodePosition, DecodePosition;
    if a.name == POSITION_LABEL {
      assert b.account.data[..POSITION_LEN] == EncodePosition(p);
      assert b.account.data[POSITION_LEN..] == a.account.data[POSITION_LEN..];
    }
  }

  ghost predicate FoundAt(xs: seq<NamedAccount>, ys: seq<NamedAccount>, name: string, i: int) {
    0 <= i < |xs| && i < |ys| && xs[i].name == name
    && FindAccount(xs, name) == Some(xs[i]) && FindAccount(ys, name) == Some(ys[i])
  }

  lemma {:induction false} FindPairs(xs: seq<NamedAccount>, ys: seq<NamedAccount>, name: string)
    requires |xs| == |ys| && forall i :: 0 <= i < |xs| ==> xs[i].name == ys[i].name
    ensures FindAccount(xs, name).Some? <==> FindAccount(ys, name).Some?
    ensures FindAccount(xs, name).Some? ==> exists i :: FoundAt(xs, ys, name, i)
  {
    if xs != [] && xs[0].name != name {
      FindPairs(xs[1..], ys[1..], name);
      if FindAccount(xs[1..], name).Some? {
        var i :| FoundAt(xs[1..], ys[1..], name, i);
        assert FoundAt(xs, ys, name, i + 1);
      }
    } else if xs != [] {
      assert FoundAt(xs, ys, name, 0);
    }
  }

  lemma VariantEdits(base: Fixture, collateral: u64, debt: u64)
    requires Editable(base) && VariantOf(base, collateral, debt).Some?
    ensures var v, p := VariantOf(base, collateral, debt).value, ReadPosition(base).value;
      && v == base.(accounts := v.accounts) && |v.accounts| == |base.accounts|
      && (forall i :: 0 <= i < |base.accounts| ==> EditedOnly(base.accounts[i], v.accounts[i], EditedPosition(p, collateral, debt), collateral))
      && ReadPosition(v) == Some(EditedPosition(p, collateral, debt))
  {
    var v, p := VariantOf(base, collateral, debt).value, ReadPosition(base).value;
    var q := EditedPosition(p, collateral, debt);
    EditPointwise(base.accounts, q, collateral);
    forall i | 0 <= i < |base.accounts| ensures EditedOnly(base.accounts[i], v.accounts[i], q, collateral) {
      assert base.accounts[i] in base.accounts;
      EditIsLocal(base.accounts[i], q, collateral);
    }
    hide EditAll, EditAccount, EditedPosition, VariantOf, DecodePosition;
    assert forall i :: 0 <= i < |base.accounts| ==> base.accounts[i].name == v.accounts[i].name;
    FindPairs(base.accounts, v.accounts, POSITION_LABEL);
  }

  /** `q` is `p` holding other amounts, with the health that those amounts have at the position's own
      price and threshold. */
  ghost predicate Holding(p: Position, q: Position, collateral: u64, debt: u64) {
    && q.collateralAmount == collateral && q.debtAmount == debt
    && q.healthFactor == R.HealthFactor(collateral, debt, p.collateralPrice, p.liquidationThresholdBps)
    && q.tag == p.tag && q.version == p.version && q.owner == p.owner && q.market == p.market
    && q.collateralPrice == p.collateralPrice && q.liquidationThresholdBps == p.liquidationThresholdBps
    && q.maxLtvBps == p.maxLtvBps && q.lastUpdateSlot == p.lastUpdateSlot
  }

  /** A position holds the amounts, a vault the collateral above its rent floor; whatever else there is
      about an account stays. */
  ghost predicate Adjusted(a: NamedAccount, b: NamedAccount, p: Position, collateral: u64, debt: u64) {
    && b.name == a.name && b.address == a.address
    && b.account.owner == a.account.owner && b.account.executable == a.account.executable
    && b.account.rentEpoch == a.account.rentEpoch
    && b.account.lamports == (if a.name == "vault" then 890_880 + collateral else a.account.lamports)
    && (if a.name == "position" then
          |b.account.data| == |a.account.data| >= 110
          && Holding(p, DecodePosition(b.account.data[..110]), collateral, debt)
          && b.account.data[110..] == a.account.data[110..]
        else b.account.data == a.account.data)
  }

  /** A variant is a self-consistent edit: every position account reads back as the base's position with the
      requested amounts and the health they have, each vault custodies exactly the collateral above its
      floor, and nothing else of the fixture moves. */
  lemma VariantIsSelfConsistent(base: Fixture, collateral: u64, debt: u64)
    requires Editable(base) && VariantOf(base, collateral, debt).Some?
    ensures var v, p := VariantOf(base, collateral, debt).value, ReadPosition(base).value;
      && v == base.(accounts := v.accounts) && |v.accounts| == |base.accounts|
      && (forall i :: 0 <= i < |base.accounts| ==> Adjusted(base.accounts[i], v.accounts[i], p, collateral, debt))
      && ReadPosition(v).Some? && Holding(p, ReadPosition(v).value, collateral, debt)
  {
    VariantEdits(base, collateral, debt);
    var v, p := VariantOf(base, collateral, debt).value, ReadPosition(base).value;
    assert Holding(p, EditedPosition(p, collateral, debt), collateral, debt);
    hide VariantOf, EditedPosition, ReadPosition, DecodePosition, R.HealthFactor, Holding, Editable;
    forall i | 0 <= i < |base.accounts| ensures Adjusted(base.accounts[i], v.accounts[i], p, collateral, debt) {
      assert EditedOnly(base.accounts[i], v.accounts[i], EditedPosition(p, collateral, debt), collateral);
    }
  }

  lemma VariantStaysEditable(base: Fixture, collateral: u64, debt: u64)
    requires Editable(base) && VariantOf(base, collateral, debt).Some?
    ensures Editable(VariantOf(base, collateral, debt).value)
  {
    VariantEdits(base, collateral, debt);
    var v := VariantOf(base, collateral, debt).value;
    hide VariantOf, EditedPosition, ReadPosition, DecodePosition;
    forall a | a in v.accounts && a.name == POSITION_LABEL ensures |a.account.data| >= POSITION_LEN {
      var i :| 0 <= i < |v.accounts| && v.accounts[i] == a;
      assert base.accounts[i] in base.accounts;
    }
  }

  /** Editing a variant forgets the first edit: every variant depends on the base alone. */
  lemma VariantsCompose(base: Fixture, c: u64, d: u64, c': u64, d': u64)
    requires Editable(base) && VariantOf(base, c, d).Some?
    ensures Editable(VariantOf(base, c, d).value)
    ensures VariantOf(VariantOf(base, c, d).value, c', d') == VariantOf(base, c', d')
  {
    VariantStaysEditable(base, c, d);
    VariantEdits(base, c, d);
    var v, p := VariantOf(base, c, d).value, ReadPosition(base).value;
    var q, q' := EditedPosition(p, c, d), EditedPosition(p, c', d');
    assert EditedPosition(q, c', d') == q';
    EditPointwise(base.accounts, q, c);
    hide ReadPosition, EditAll, EditedPosition, EditedOnly, EditAccount, VariantOf;
    EditsCompose(base.accounts, v.accounts, q, c, q', c');
    VariantIs(base, c', d');
    VariantIs(v, c', d');
  }

  lemma VariantIs(base: Fixture, c: u64, d: u64)
    requires Editable(base) && ReadPosition(base).Some?
    ensures var edited := EditAll(base.accounts, EditedPosition(ReadPosition(base).value, c, d), c);
      VariantOf(base, c, d) == if edited == None then None else Some(base.(accounts := edited.value))
  {
  }

  lemma EditsCompose(xs: seq<NamedAccount>, ys: seq<NamedAccount>, q: Position, c: u64, q': Position, c': u64)
    requires Holdable(xs) && Holdable(ys)
    requires EditAll(xs, q, c) == Some(ys)
    ensures EditAll(ys, q', c') == EditAll(xs, q', c')
  {
  }

  // ---- reproducing a regression ------------------------------------------------------------------------------

  /** The regression class a fixture shows when both builds run it; none if it carries no position.
      A failing execution, or a comparison that aborts, is an error. */
  function ObservedClass(fixture: Fixture, v1: Program, v2: Program): Result<Option<ClusterKey>, string> {
    match v1(fixture)
    case Err(e) => Err(e)
    case Ok(r1) =>
      match v2(fixture)
      case Err(e) => Err(e)
      case Ok(r2) =>
        if !D.Completes(r1, r2) then Err("attempt to subtract with overflow")
        else
          var diff := D.DiffOf(fixture, r1, r2, D.FixtureLending);
          match Evaluate(fixture, diff)
          case None => Ok(None)
          case Some(economics) => Ok(Some(Signature(fixture, diff, economics)))
  }
}
