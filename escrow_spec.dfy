/**
 * The three escrow instructions as functions from the state before to the
 * state after, or to the error that aborts them. Each is all-or-nothing: it
 * checks the account constraints, then runs its token-program calls in order,
 * and the first failure discards every effect.
 */
module EscrowSpec {
  import opened Results
  import opened TokenLedger
  import opened EscrowAccounts

  /** What `cancel_escrow` demands of the caller: the initializer signed and the accounts match the open record. */
  predicate CancelAuthorized(s: State, signers: set<Key>, a: CancelEscrowAccounts)
  {
    && a.initializer in signers
    && s.IsOpen(a.escrowAccount)
    && s.records[a.escrowAccount].escrow.initializerKey == a.initializer
    && s.records[a.escrowAccount].escrow.initializerDepositTokenAccount == a.initializerDepositTokenAccount
  }

  /** What `exchange` demands of the caller: the taker signed, can pay, and the accounts match the open record. */
  predicate ExchangeAuthorized(s: State, signers: set<Key>, a: ExchangeAccounts)
  {
    && a.taker in signers
    && a.takerDepositTokenAccount in s.tokens
    && s.IsOpen(a.escrowAccount)
    && var escrow := s.records[a.escrowAccount].escrow;
    && escrow.takerAmount <= s.tokens[a.takerDepositTokenAccount].amount
    && escrow.initializerDepositTokenAccount == a.initializerDepositTokenAccount
    && escrow.initializerReceiveTokenAccount == a.initializerReceiveTokenAccount
    && escrow.initializerKey == a.initializer
  }

  /**
   * `initialize_escrow`: store the deal terms, create the vault, hand it to
   * the vault authority, and move the deposit into it.
   */
  function InitializeEscrow(s: State, signers: set<Key>, a: InitializeEscrowAccounts,
                            initializerAmount: U64, takerAmount: U64): (r: Result<State, EscrowError>)
    ensures a.initializer !in signers ==> r == Err(ConstraintSigner)
    ensures s.InUse(VaultAddress) ==> r.Err?
    ensures (a.initializerDepositTokenAccount in s.tokens
             && s.tokens[a.initializerDepositTokenAccount].amount < initializerAmount) ==> r.Err?
    ensures !(a.escrowAccount in s.records && s.records[a.escrowAccount].Zeroed?) ==> r.Err?
    ensures r.Ok? <==>
      && CheckInitializeEscrow(s, signers, a, initializerAmount).Pass?
      && s.tokens[a.initializerDepositTokenAccount].mint == a.mint
      && s.tokens[a.initializerDepositTokenAccount].owner == a.initializer
    ensures r.Ok? ==>
      r.value.records == s.records[a.escrowAccount := Holds(EscrowAccount(
        a.initializer, a.initializerDepositTokenAccount, a.initializerReceiveTokenAccount,
        initializerAmount, takerAmount))]
    ensures r.Ok? ==> r.value.tokens.Keys == s.tokens.Keys + {VaultAddress}
    ensures r.Ok? ==> r.value.tokens[VaultAddress] == TokenAccount(a.mint, VaultAuthority, initializerAmount)
    ensures r.Ok? ==> forall k | k in s.tokens ::
      Credited(s.tokens, r.value.tokens, k,
               if k == a.initializerDepositTokenAccount then -(initializerAmount as int) else 0)
  {
    match CheckInitializeEscrow(s, signers, a, initializerAmount)
    case Fail(e) => Err(e)
    case Pass =>
      var escrow := EscrowAccount(a.initializer, a.initializerDepositTokenAccount,
                                  a.initializerReceiveTokenAccount, initializerAmount, takerAmount);
      // `init` creates the vault for `mint`, owned by the initializer
      var created := s.tokens[a.vaultAccount := TokenAccount(a.mint, a.initializer, 0)];
      match SetAuthority(created, a.AsSetAuthorityContext(), signers, VaultAuthority)
      case Err(e) => Err(Token(e))
      case Ok(handedOver) =>
        match Transfer(handedOver, a.AsTransferToPdaContext(), signers, initializerAmount)
        case Err(e) => Err(Token(e))
        case Ok(funded) => Ok(State(funded, s.records[a.escrowAccount := Holds(escrow)]))
  }

  /**
   * `cancel_escrow`: refund the vault to the initializer's deposit account,
   * close the vault, and close the record.
   */
  function CancelEscrow(s: State, signers: set<Key>, a: CancelEscrowAccounts): (r: Result<State, EscrowError>)
    ensures !CancelAuthorized(s, signers, a) ==> r.Err?
    ensures && a.initializer in signers
            && a.initializerDepositTokenAccount in s.tokens && a.vaultAccount in s.tokens
            && s.IsOpen(a.escrowAccount)
            && s.records[a.escrowAccount].escrow.initializerKey != a.initializer
            ==> r == Err(ConstraintRaw)
    // succeeds exactly when the caller is authorized, the vault can pay the
    // refund, and the refund empties the vault so that it can be closed
    ensures r.Ok? <==>
      && CancelAuthorized(s, signers, a)
      && var refund := s.records[a.escrowAccount].escrow.initializerAmount;
      && CanTransfer(s.tokens, a.AsTransferToInitializerContext(), WithVaultAuthority(signers), refund)
      && a.vaultAccount != a.initializer
      && s.tokens[a.vaultAccount].amount
         == (if a.vaultAccount == a.initializerDepositTokenAccount then 0 else refund)
    ensures r.Ok? ==> r.value.records == s.records - {a.escrowAccount}
    ensures r.Ok? ==> r.value.tokens.Keys == s.tokens.Keys - {a.vaultAccount}
    ensures r.Ok? ==>
      var refund := s.records[a.escrowAccount].escrow.initializerAmount;
      forall k | k in r.value.tokens ::
        Credited(s.tokens, r.value.tokens, k, Delta(k, a.vaultAccount, a.initializerDepositTokenAccount, refund))
    ensures r.Ok? ==>
      s.tokens[a.vaultAccount].owner == a.vaultAuthority && a.vaultAuthority in WithVaultAuthority(signers)
  {
    match CheckCancelEscrow(s, signers, a)
    case Fail(e) => Err(e)
    case Pass =>
      var escrow := s.records[a.escrowAccount].escrow;
      match Transfer(s.tokens, a.AsTransferToInitializerContext(), WithVaultAuthority(signers),
                     escrow.initializerAmount)
      case Err(e) => Err(Token(e))
      case Ok(refunded) =>
        match CloseAccount(refunded, a.AsCloseContext(), WithVaultAuthority(signers))
        case Err(e) => Err(Token(e))
        case Ok(closed) => Ok(State(closed, s.records - {a.escrowAccount}))
  }

  /**
   * `exchange`: the taker pays the initializer's deposit account, the vault
   * pays the taker's receive account, the vault is closed, and the record is
   * closed.
   */
  function Exchange(s: State, signers: set<Key>, a: ExchangeAccounts): (r: Result<State, EscrowError>)
    ensures !ExchangeAuthorized(s, signers, a) ==> r.Err?
    ensures && a.taker in signers
            && a.takerDepositTokenAccount in s.tokens && a.takerReceiveTokenAccount in s.tokens
            && a.initializerDepositTokenAccount in s.tokens && a.initializerReceiveTokenAccount in s.tokens
            && s.IsOpen(a.escrowAccount)
            && s.records[a.escrowAccount].escrow.takerAmount > s.tokens[a.takerDepositTokenAccount].amount
            ==> r == Err(ConstraintRaw)
    ensures r.Ok? ==>
      && ExchangeAuthorized(s, signers, a)
      && a.initializerDepositTokenAccount in s.tokens
      && a.takerReceiveTokenAccount in s.tokens
      && a.vaultAccount in s.tokens
    ensures r.Ok? ==> r.value.records == s.records - {a.escrowAccount}
    ensures r.Ok? ==> r.value.tokens.Keys == s.tokens.Keys - {a.vaultAccount}
    ensures r.Ok? ==>
      var escrow := s.records[a.escrowAccount].escrow;
      && (forall k | k in r.value.tokens ::
            Credited(s.tokens, r.value.tokens, k,
                     Delta(k, a.takerDepositTokenAccount, a.initializerDepositTokenAccount, escrow.takerAmount)
                     + Delta(k, a.vaultAccount, a.takerReceiveTokenAccount, escrow.initializerAmount)))
      // the vault ends empty, counting every way it may alias the other accounts
      && s.tokens[a.vaultAccount].amount
         + Delta(a.vaultAccount, a.takerDepositTokenAccount, a.initializerDepositTokenAccount, escrow.takerAmount)
         + Delta(a.vaultAccount, a.vaultAccount, a.takerReceiveTokenAccount, escrow.initializerAmount) == 0
    ensures r.Ok? && a.vaultAccount !in {a.takerDepositTokenAccount, a.initializerDepositTokenAccount,
                                         a.takerReceiveTokenAccount} ==>
      s.tokens[a.vaultAccount].amount == s.records[a.escrowAccount].escrow.initializerAmount
    ensures r.Ok? ==>
      && s.tokens[a.takerDepositTokenAccount].owner == a.taker
      && s.tokens[a.takerDepositTokenAccount].mint == s.tokens[a.initializerDepositTokenAccount].mint
    ensures r.Ok? ==>
      s.tokens[a.vaultAccount].owner == a.vaultAuthority && a.vaultAuthority in WithVaultAuthority(signers)
  {
    match CheckExchange(s, signers, a)
    case Fail(e) => Err(e)
    case Pass =>
      var escrow := s.records[a.escrowAccount].escrow;
      match Transfer(s.tokens, a.AsTransferToInitializerContext(), signers, escrow.takerAmount)
      case Err(e) => Err(Token(e))
      case Ok(paid) =>
        match Transfer(paid, a.AsTransferToTakerContext(), WithVaultAuthority(signers),
                       escrow.initializerAmount)
        case Err(e) => Err(Token(e))
        case Ok(released) =>
          match CloseAccount(released, a.AsCloseContext(), WithVaultAuthority(signers))
          case Err(e) => Err(Token(e))
          case Ok(closed) => Ok(State(closed, s.records - {a.escrowAccount}))
  }

  /**
   * All-or-nothing commit of an instruction's result: on success the state
   * becomes the result; on failure the error is reported and nothing changes.
   */
  ghost predicate Commits(before: State, result: Result<State, EscrowError>, after: State,
                          outcome: Outcome<EscrowError>)
  {
    match result
    case Ok(next) => outcome == Pass && after == next
    case Err(e) => outcome == Fail(e) && after == before
  }
}
