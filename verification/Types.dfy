/** Fixtures and execution results, as the comparison pipeline sees them
    (engine/src/types.rs, engine/src/executor.rs). */
module Types {
  import opened Prelude
  import opened Layout

  datatype AccountSnapshot = AccountSnapshot(lamports: u64, owner: string, data: Bytes, executable: bool, rentEpoch: u64)

  datatype NamedAccount = NamedAccount(name: string, address: string, account: AccountSnapshot)

  datatype KeypairSpec = KeypairSpec(name: string, seed: Bytes, address: string)

  datatype AccountMeta = AccountMeta(address: string, isSigner: bool, isWritable: bool)

  datatype Instruction = Instruction(program: string, accounts: seq<AccountMeta>, data: Bytes)

  datatype Category =
    | Healthy | Moderate | Small | Large | Fractional | NearLiquidation
    | Boundary | WithdrawBoundary | LiquidationBoundary

  datatype Fixture = Fixture(
    id: string, category: Category, scenario: string, notes: string,
    keypairs: seq<KeypairSpec>, accounts: seq<NamedAccount>, feePayer: string, signers: seq<string>,
    instruction: Instruction, watch: seq<string>)
  {
    /** The first account carrying a label (`name` here). */
    function Account(name: string): Option<NamedAccount> {
      FindAccount(accounts, name)
    }
  }

  function FindAccount(accounts: seq<NamedAccount>, name: string): Option<NamedAccount> {
    if accounts == [] then None
    else if accounts[0].name == name then Some(accounts[0])
    else FindAccount(accounts[1..], name)
  }

  ghost predicate IsFirst(accounts: seq<NamedAccount>, name: string, i: int) {
    0 <= i < |accounts| && accounts[i].name == name && forall j :: 0 <= j < i ==> accounts[j].name != name
  }

  /** The lookup finds the first account of that label, and nothing only where there is none. */
  lemma {:induction false} FindAccountIsFirst(accounts: seq<NamedAccount>, name: string)
    ensures FindAccount(accounts, name) == None <==> forall a :: a in accounts ==> a.name != name
    ensures FindAccount(accounts, name).Some? ==>
      exists i :: IsFirst(accounts, name, i) && FindAccount(accounts, name) == Some(accounts[i])
  {
    if accounts != [] {
      if accounts[0].name == name {
        assert IsFirst(accounts, name, 0);
      } else {
        var rest := accounts[1..];
        FindAccountIsFirst(rest, name);
        assert forall a :: a in accounts <==> a == accounts[0] || a in rest;
        if FindAccount(rest, name).Some? {
          var i :| IsFirst(rest, name, i) && FindAccount(rest, name) == Some(rest[i]);
          assert IsFirst(accounts, name, i + 1) && accounts[i + 1] == rest[i];
        }
      }
    }
  }

  /** One cross-program invocation: depth, origin and shape of the call. */
  datatype CpiCall = CpiCall(
    program: string, stackHeight: u8, outerIndex: u8, accountCount: u8, dataLen: u32, discriminant: Option<u8>)

  datatype ExecutionResult = ExecutionResult(
    version: string, success: bool, error: Option<string>, computeUnits: Option<u64>, fee: u64,
    logs: seq<string>, cpiCalls: seq<CpiCall>, accounts: map<string, AccountSnapshot>)

  /** A program build, reduced to what the engine uses it for: executing a fixture in a fresh,
      pinned environment. Determinism is the only property of the virtual machine relied upon. */
  type Program = Fixture -> Result<ExecutionResult, string>
}
