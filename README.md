# Escrow program model

A Dafny model of the two-party token escrow program in
`programs/escrow-program/src/lib.rs`: an on-chain program with three
instructions, `initialize_escrow`, `cancel_escrow` and `exchange`, that move
tokens through an abstract token ledger.

- `initialize_escrow` does four things. It stores the deal terms in a zeroed
  record account. It creates the vault token account at the address
  derived from the seed `token-seed` and the bump the caller passes. It hands the vault to the authority
  derived from `escrow-pda-seed`. It then moves the initializer's deposit into
  the vault.
- `cancel_escrow` refunds the vault to the initializer's deposit account. It
  then closes the vault and the record.
- `exchange` runs three steps in order. The taker pays the taker amount into
  the initializer's deposit account. The vault pays the initializer amount to
  the taker's receive account. The vault and the record are closed.

Every instruction first checks its declarative account constraints, then runs
its token-program calls in order. Each call can fail, and a failure aborts the
whole instruction. Nothing it did before remains.

## Layout

- `results.dfy` (`Results`): `Result` and `Outcome`.
- `token_ledger.dfy` (`TokenLedger`): the token program as an abstract ledger.
  - Keys are addresses. A `Wallet` address can sign; a `Derived` address is a
    program-derived address, identified by its seed, that only the program can
    sign for.
  - Accounts carry a mint, an owner and a `u64` balance.
  - `Transfer`, `SetAuthority` and `CloseAccount` take the context records that
    the `as_*_context` builders produce: who pays whom, under which authority.
- `escrow_accounts.dfy` (`EscrowAccounts`): the `EscrowAccount` record, the
  record slots (zeroed or holding a deal), the state, the account lists of the
  three instructions with their context builders, and the constraint checks.
- `escrow_spec.dfy` (`EscrowSpec`): the three instructions as functions from
  the state to a new state or an error. Their contracts state the rejections
  and the exact balance effects.
- `escrow_program.dfy` (`EscrowProgram`): class `Program`, whose fields are
  the ledger and the record accounts. Its handler methods run the steps one by
  one, and each is proved to commit exactly what the matching function gives.
  A failing handler leaves the fields unchanged.
- `escrow_invariants.dfy` (`EscrowInvariants`): the environment. Other parties
  may call the token program directly or create accounts. `Inv` holds in every
  reachable state:
  - the vault is owned by the derived authority;
  - an open deal is backed by a vault holding at least its deposit;
  - at most one deal is open at a time.
- `escrow_properties.dfy` (`EscrowProperties`): the promises of cancel and
  exchange, that a settled deal stays closed, and what a vault surplus does.
- `escrow_scenarios.dfy` (`EscrowScenarios`): two concrete runs.

## Where the code and its design description differ (the model follows the code)

- The taker's payment goes to the initializer's deposit account. The
  initializer's receive account is only compared against the record (lib.rs
  lines 219-223 and 236-244). A token transfer requires matching mints, so the
  taker must pay in the same token the initializer deposited. The cross-asset
  swap the design describes (100 of A for 50 of B) is rejected with a mint
  mismatch (`EscrowScenarios.CrossAssetSwapIsRejected`).
- The vault holds at least the deposit, not exactly the deposit. Anyone can
  pay into it (`EscrowProperties.AnyoneCanTopUpVault`). Cancel and exchange
  move out only the stored amount, and closing the vault then fails, so the
  deal is locked for as long as the surplus remains
  (`EscrowProperties.SurplusLocksVault`).
- `cancel_escrow` and `exchange` never check that `vault_account` is the vault
  or that `vault_authority` is the derived authority (lib.rs lines 156-158 and
  229-231). A taker can name its own account as the vault and sign as its
  authority. The deal then closes while the real vault keeps the deposit
  (`EscrowScenarios.BorrowedVaultStrandsDeposit`). A vault left without a deal
  can never be closed, and no new deal can be opened, because the vault
  address is taken (`EscrowProperties.StrandedVaultStaysStranded`; this rests
  on the single vault address described under "Left out").

## Model

| member | source | states |
|---|---|---|
| `TokenLedger.Transfer` | programs/escrow-program/src/lib.rs:45-48 | A transfer succeeds exactly when both accounts exist, the source holds enough, the mints match, the source's owner is the authority and signed, and the receiving balance stays within u64. An insufficient balance is reported as such. On success every balance changes by what moved in minus what moved out (nothing for a self-transfer); mints, owners and the set of accounts stay the same. |
| `TokenLedger.SetAuthority` | programs/escrow-program/src/lib.rs:39-43 | Changing the owner succeeds exactly when the account exists and its current owner signed. Only that account's owner changes. |
| `TokenLedger.CloseAccount` | programs/escrow-program/src/lib.rs:65-69 | Closing succeeds exactly when the account exists, is not its own destination, holds nothing, and its owner signed. A non-zero balance is reported as such. On success only that account disappears. |
| `TokenLedger.TransferRoundTrip` | programs/escrow-program/src/lib.rs:57-62 | A transfer is undone by the reverse transfer of the same amount, signed by the receiver's owner. |
| `TokenLedger.UnsignedAccountIsSafe` | programs/escrow-program/src/lib.rs:37-43 | Without its owner's signature, an account keeps its place, its owner and at least its balance under any transfer, owner change or close. |
| `EscrowSpec.InitializeEscrow` | programs/escrow-program/src/lib.rs:13-49 | Rejected without the initializer's signature, when the vault address is in use, when the deposit is below the initializer amount, or when the record account is not zeroed. Succeeds exactly when the constraints hold and the deposit account has the vault's mint and is owned by the initializer. On success the record holds the initializer's key, the deposit and receive accounts and both amounts as given. The vault holds the initializer amount of the mint, owned by the derived authority. The deposit account lost exactly that amount, and no other account changed. |
| `EscrowSpec.CancelEscrow` | programs/escrow-program/src/lib.rs:51-70 | Rejected unless the initializer signed, the record is open, its initializer key is the signer and its deposit account is the one passed. A wrong signer gets a constraint error. Succeeds exactly when, in addition, the vault can pay the stored initializer amount to the deposit account under the given vault authority (with the derived authority among the signers), the vault is not the initializer's own address, and the vault held exactly that amount (nothing, if it is the deposit account itself). On success the record and the vault are gone. Balances change only by the stored initializer amount moving from the vault to the deposit account, and the vault held exactly that much. The vault was owned by the given vault authority, which had to sign or be the derived authority. |
| `EscrowSpec.Exchange` | programs/escrow-program/src/lib.rs:72-96 | Rejected unless the taker signed, can pay the taker amount, and the initializer key, deposit and receive accounts match the open record. A taker balance below the taker amount gets a constraint error before any transfer. On success the record and the vault are gone. Balances change only by the taker amount moving from the taker's deposit account to the initializer's deposit account, and the initializer amount moving from the vault to the taker's receive account. The vault ends empty, so when it is none of the other three token accounts it held exactly the initializer amount. The taker owns the paying account, and its mint is that of the initializer's deposit account. |
| `EscrowInvariants.InitializeKeepsInv` | programs/escrow-program/src/lib.rs:102-122 | A successful initialize keeps the invariant. It can only run while no deal is open, and afterwards exactly one deal is open: the one in the record account it was given. |
| `EscrowInvariants.CancelKeepsInv` | programs/escrow-program/src/lib.rs:150-171 | A successful cancel keeps the invariant and leaves no deal open. |
| `EscrowInvariants.ExchangeKeepsInv` | programs/escrow-program/src/lib.rs:196-233 | A successful exchange keeps the invariant and leaves no deal open. |
| `EscrowInvariants.ExternalCallsCannotDrainVault` | programs/escrow-program/src/lib.rs:37-43 | A transaction that bypasses the escrow program cannot remove the vault, change its owner or lower its balance. |
| `EscrowInvariants.ExternalKeepsInv` | programs/escrow-program/src/lib.rs:105-113 | Direct token-program calls and account creation by other parties keep the invariant. |
| `EscrowInvariants.StepKeepsInv` | programs/escrow-program/src/lib.rs:105-113 | Every admitted transaction keeps the invariant. |
| `EscrowInvariants.RunKeepsInv` | programs/escrow-program/src/lib.rs:105-113 | The invariant holds after any sequence of transactions. Only one vault address exists (the canonical bump, see "Left out"), so at most one deal is open, and every open deal is backed by the vault. |
| `EscrowInvariants.TermsNeverChange` | programs/escrow-program/src/lib.rs:268-280 | No transaction rewrites the stored terms of a deal that stays open. |
| `EscrowProperties.CancelRefundsDeposit` | programs/escrow-program/src/lib.rs:174-193 | A successful cancel credits the deposit account with exactly the initializer amount, out of a vault that held exactly that. It removes the vault and the record and leaves every other token account unchanged. |
| `EscrowProperties.ExchangeSettles` | programs/escrow-program/src/lib.rs:236-254 | For distinct accounts, a successful exchange works as follows. The taker's deposit loses the taker amount, and the initializer's deposit gains it. The taker's receive account gains the initializer amount, which the vault held exactly. The vault and the record are gone, and every other account is unchanged, including the initializer's receive account. |
| `EscrowProperties.CancelUndoesInitialize` | programs/escrow-program/src/lib.rs:13-70 | Right after a successful initialize, a cancel signed by the initializer that names the vault and the derived authority succeeds. It returns every token account to its state before the deal; only the record account is gone. |
| `EscrowProperties.ExchangeProgress` | programs/escrow-program/src/lib.rs:72-96 | Between four distinct token accounts, an exchange succeeds exactly when the taker is authorized, the taker's payment and the vault's release are both transfers the token program accepts, the vault is not the initializer's own address, and the vault held exactly the initializer amount. |
| `EscrowProperties.CancelledDealStaysClosed` | programs/escrow-program/src/lib.rs:159-168 | After a successful cancel, any cancel or exchange against the same record fails. |
| `EscrowProperties.ExchangedDealStaysClosed` | programs/escrow-program/src/lib.rs:210-227 | After a successful exchange, any cancel or exchange against the same record fails. |
| `EscrowProperties.AnyoneCanTopUpVault` | programs/escrow-program/src/lib.rs:105-113 | Any holder of the vault's mint can pay into the vault of an open deal, leaving it holding more than the deposit. |
| `EscrowProperties.SurplusLocksVault` | programs/escrow-program/src/lib.rs:57-69 | While the vault holds more than the open deal's initializer amount, both cancel and exchange against the vault fail. |
| `EscrowProperties.StrandedVaultStep` | programs/escrow-program/src/lib.rs:105-113 | With the vault present and no deal open, no single transaction opens a deal or lowers the vault. |
| `EscrowProperties.StrandedVaultStaysStranded` | programs/escrow-program/src/lib.rs:105-113 | With the vault present and no deal open, no sequence of transactions ever opens a deal or lowers the vault. |
| `EscrowScenarios.CrossAssetSwapIsRejected` | programs/escrow-program/src/lib.rs:236-244 | The initializer locks 100 of A and asks 50. A taker paying with B is rejected with a mint mismatch, and a taker paying with A succeeds. |
| `EscrowScenarios.BorrowedVaultStrandsDeposit` | programs/escrow-program/src/lib.rs:229-231 | A taker that names its own account as the vault and itself as the vault authority settles the deal. The real vault keeps the 100 deposited, and no deal is ever opened again. |
| `EscrowProgram.Program.constructor` | programs/escrow-program/src/lib.rs:268-280 | A program over a given ledger and zeroed record accounts satisfies the invariant. |
| `EscrowProgram.Program.InitializeEscrow` | programs/escrow-program/src/lib.rs:13-49 | The handler keeps the invariant. On success its new state is exactly `EscrowSpec.InitializeEscrow`'s. On failure it returns that function's error and changes nothing. |
| `EscrowProgram.Program.CancelEscrow` | programs/escrow-program/src/lib.rs:51-70 | The handler keeps the invariant. On success its new state is exactly `EscrowSpec.CancelEscrow`'s. On failure it returns that function's error and changes nothing. |
| `EscrowProgram.Program.Exchange` | programs/escrow-program/src/lib.rs:72-96 | The handler keeps the invariant. On success its new state is exactly `EscrowSpec.Exchange`'s. On failure it returns that function's error and changes nothing. |

## Left out

- Program-derived address derivation (`find_program_address`, bump seeds, `with_signer`) is hashing. An address derived from a seed is the value `Derived(seed)`, distinct from every wallet address. Signing "with the seeds" adds the derived authority to the call's signers.
- The vault's bump: the handler ignores `_vault_account_bump`, but the `#[instruction(vault_account_bump, ...)]` attribute (lib.rs line 100) feeds it to the vault's address check `bump = vault_account_bump` (line 108). The model assumes the framework accepts only the canonical bump, so there is a single vault address `VaultAddress`. If every bump the caller passes yielded its own address, several vaults could exist. Four results then no longer follow: `Inv`'s "at most one deal is open", `StrandedVaultStaysStranded`, `BorrowedVaultStrandsDeposit`'s "no deal is ever opened again", and the claim above that a stranded vault blocks new deals for good.
- Lamports and rent are not modelled: the rent the initializer pays for the vault, and the lamports that closing the vault or the record returns to the initializer. A close destination is only checked to differ from the closed account.
- Creating accounts through the system program is outside the program. Zeroed record accounts and new token accounts come from the environment's `CreateRecordAccountTx` and `CreateTokenAccountTx` actions. `init` of the vault is modelled as creating an empty token account of `mint`, owned by the initializer.
- The `mint` account is not checked to be a real mint. Token accounts have no delegate, close authority, frozen state or native-token balance.
- When several constraints fail at once, the error reported is the first one in account-declaration order. The exact order of the framework's deserialization and constraint passes is not modelled.
- The token program account passed to each instruction is assumed to be the real token program. The source does not check it.
- Signature verification, transaction scheduling and account locking are host concerns. Each instruction is one atomic step, and the host admits only wallet signers.
