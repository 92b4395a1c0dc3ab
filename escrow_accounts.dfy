/**
 * The escrow program's persistent data and the accounts each instruction is
 * given: the escrow record, the program-derived addresses, the account
 * lists of the three instructions with the token-program contexts built from
 * them, and the declarative account constraints checked before any handler runs.
 */
module EscrowAccounts {
  import opened Results
  import opened TokenLedger

  /** Seed of the authority that owns every vault. */
  const EscrowPdaSeed: string := "escrow-pda-seed"

  /** Seed of the address at which `initialize_escrow` creates the vault. */
  const TokenSeed: string := "token-seed"

  /** The program-derived vault authority: no private key, only the program signs for it. */
  const VaultAuthority: Key := Derived(EscrowPdaSeed)

  /** The one address a vault can be created at: the seed with its canonical bump. */
  const VaultAddress: Key := Derived(TokenSeed)

  /** The deal terms, fixed when the escrow is initialized. */
  datatype EscrowAccount = EscrowAccount(
    initializerKey: Key,
    initializerDepositTokenAccount: Key,
    initializerReceiveTokenAccount: Key,
    initializerAmount: U64,
    takerAmount: U64)

  /** A program-owned record account: still zeroed, or holding a deal. */
  datatype RecordSlot = Zeroed | Holds(escrow: EscrowAccount)

  /** Everything the three instructions read or write: token accounts and record accounts. */
  datatype State = State(tokens: Ledger, records: map<Key, RecordSlot>)
  {
    /** Some account already lives at address `k`. */
    predicate InUse(k: Key)
    {
      k in tokens || k in records
    }

    /** Record account `k` holds an open deal. */
    predicate IsOpen(k: Key)
    {
      k in records && records[k].Holds?
    }
  }

  /** The transaction signers seen by a token-program call made `with_signer` the vault authority's seeds. */
  function WithVaultAuthority(signers: set<Key>): set<Key>
  {
    signers + {VaultAuthority}
  }

  /** Why an instruction was rejected. */
  datatype EscrowError =
    | ConstraintSigner               // an account marked `signer` did not sign
    | ConstraintSeeds                // the vault is not at the address derived from its seed
    | AccountInUse                   // `init`: an account already lives at the vault address
    | AccountNotInitialized          // an account is missing or has the wrong kind
    | AccountDiscriminatorMismatch   // the record account holds no escrow record
    | ConstraintZero                 // `zero`: the record account already holds a record
    | ConstraintRaw                  // a `constraint = ...` expression is false
    | Token(error: TokenError)       // a token-program call failed

  datatype InitializeEscrowAccounts = InitializeEscrowAccounts(
    initializer: Key,
    mint: Key,
    vaultAccount: Key,
    initializerDepositTokenAccount: Key,
    initializerReceiveTokenAccount: Key,
    escrowAccount: Key)
  {
    /** The deposit goes into the vault, under the initializer's authority. */
    function AsTransferToPdaContext(): TransferContext
    {
      TransferContext(initializerDepositTokenAccount, vaultAccount, initializer)
    }

    /** The vault changes owner, under the initializer's authority. */
    function AsSetAuthorityContext(): SetAuthorityContext
    {
      SetAuthorityContext(vaultAccount, initializer)
    }
  }

  datatype CancelEscrowAccounts = CancelEscrowAccounts(
    initializer: Key,
    initializerDepositTokenAccount: Key,
    vaultAccount: Key,
    vaultAuthority: Key,
    escrowAccount: Key)
  {
    /** The vault pays back into the deposit account, under the vault authority. */
    function AsTransferToInitializerContext(): TransferContext
    {
      TransferContext(vaultAccount, initializerDepositTokenAccount, vaultAuthority)
    }

    /** The vault is closed, its rent going to the initializer. */
    function AsCloseContext(): CloseContext
    {
      CloseContext(vaultAccount, initializer, vaultAuthority)
    }
  }

  datatype ExchangeAccounts = ExchangeAccounts(
    taker: Key,
    takerDepositTokenAccount: Key,
    takerReceiveTokenAccount: Key,
    initializerDepositTokenAccount: Key,
    initializerReceiveTokenAccount: Key,
    initializer: Key,
    escrowAccount: Key,
    vaultAccount: Key,
    vaultAuthority: Key)
  {
    /** The taker pays into the initializer's deposit account, under the taker's authority. */
    function AsTransferToInitializerContext(): TransferContext
    {
      TransferContext(takerDepositTokenAccount, initializerDepositTokenAccount, taker)
    }

    /** The vault pays the taker's receive account, under the vault authority. */
    function AsTransferToTakerContext(): TransferContext
    {
      TransferContext(vaultAccount, takerReceiveTokenAccount, vaultAuthority)
    }

    /** The vault is closed, its rent going to the initializer. */
    function AsCloseContext(): CloseContext
    {
      CloseContext(vaultAccount, initializer, vaultAuthority)
    }
  }

  /** The constraints of `InitializeEscrow`, in the order its accounts are declared. */
  function CheckInitializeEscrow(s: State, signers: set<Key>, a: InitializeEscrowAccounts,
                                 initializerAmount: U64): Outcome<EscrowError>
  {
    if a.initializer !in signers then Fail(ConstraintSigner)
    else if a.vaultAccount != VaultAddress then Fail(ConstraintSeeds)
    else if s.InUse(a.vaultAccount) then Fail(AccountInUse)
    else if a.initializerDepositTokenAccount !in s.tokens then Fail(AccountNotInitialized)
    else if s.tokens[a.initializerDepositTokenAccount].amount < initializerAmount then Fail(ConstraintRaw)
    else if a.initializerReceiveTokenAccount !in s.tokens then Fail(AccountNotInitialized)
    else if a.escrowAccount !in s.records then Fail(AccountNotInitialized)
    else if s.records[a.escrowAccount].Holds? then Fail(ConstraintZero)
    else Pass
  }

  /** The constraints of `CancelEscrow`, in the order its accounts are declared. */
  function CheckCancelEscrow(s: State, signers: set<Key>, a: CancelEscrowAccounts): Outcome<EscrowError>
  {
    if a.initializer !in signers then Fail(ConstraintSigner)
    else if a.initializerDepositTokenAccount !in s.tokens then Fail(AccountNotInitialized)
    else if a.vaultAccount !in s.tokens then Fail(AccountNotInitialized)
    else if a.escrowAccount !in s.records then Fail(AccountNotInitialized)
    else if s.records[a.escrowAccount].Zeroed? then Fail(AccountDiscriminatorMismatch)
    else
      var escrow := s.records[a.escrowAccount].escrow;
      if escrow.initializerKey != a.initializer then Fail(ConstraintRaw)
      else if escrow.initializerDepositTokenAccount != a.initializerDepositTokenAccount then Fail(ConstraintRaw)
      else Pass
  }

  /** The constraints of `Exchange`, in the order its accounts are declared. */
  function CheckExchange(s: State, signers: set<Key>, a: ExchangeAccounts): Outcome<EscrowError>
  {
    if a.taker !in signers then Fail(ConstraintSigner)
    else if a.takerDepositTokenAccount !in s.tokens then Fail(AccountNotInitialized)
    else if a.takerReceiveTokenAccount !in s.tokens then Fail(AccountNotInitialized)
    else if a.initializerDepositTokenAccount !in s.tokens then Fail(AccountNotInitialized)
    else if a.initializerReceiveTokenAccount !in s.tokens then Fail(AccountNotInitialized)
    else if a.escrowAccount !in s.records then Fail(AccountNotInitialized)
    else if s.records[a.escrowAccount].Zeroed? then Fail(AccountDiscriminatorMismatch)
    else
      var escrow := s.records[a.escrowAccount].escrow;
      if escrow.takerAmount > s.tokens[a.takerDepositTokenAccount].amount then Fail(ConstraintRaw)
      else if escrow.initializerDepositTokenAccount != a.initializerDepositTokenAccount then Fail(ConstraintRaw)
      else if escrow.initializerReceiveTokenAccount != a.initializerReceiveTokenAccount then Fail(ConstraintRaw)
      else if escrow.initializerKey != a.initializer then Fail(ConstraintRaw)
      else if a.vaultAccount !in s.tokens then Fail(AccountNotInitialized)
      else Pass
  }
}
