/**
 * What the three instructions promise their callers, stated for one call or a
 * few calls in a row, and the behaviours the account constraints allow that a
 * reader of the deal terms might not expect.
 */
module EscrowProperties {
  import opened Results
  import opened TokenLedger
  import opened EscrowAccounts
  import opened EscrowSpec
  import opened EscrowInvariants

  /**
   * A successful cancel refunds exactly the deposit to the initializer's
   * deposit account out of a vault that held exactly that much, removes the
   * vault and the record, and changes no other token account.
   */
  lemma CancelRefundsDeposit(s: State, signers: set<Key>, a: CancelEscrowAccounts)
    requires CancelEscrow(s, signers, a).Ok?
    requires a.vaultAccount != a.initializerDepositTokenAccount
    ensures var s' := CancelEscrow(s, signers, a).value;
            var escrow := s.records[a.escrowAccount].escrow;
            && a.initializerDepositTokenAccount in s'.tokens
            && s'.tokens[a.initializerDepositTokenAccount].amount
               == s.tokens[a.initializerDepositTokenAccount].amount + escrow.initializerAmount
            && s.tokens[a.vaultAccount].amount == escrow.initializerAmount
            && a.vaultAccount !in s'.tokens
            && a.escrowAccount !in s'.records
            && (forall k | k in s.tokens && k != a.vaultAccount && k != a.initializerDepositTokenAccount ::
                  k in s'.tokens && s'.tokens[k] == s.tokens[k])
  {
  }

  /**
   * A successful exchange between four distinct accounts: the taker's deposit
   * account pays the taker amount into the initializer's DEPOSIT account, the
   * vault, which held exactly the initializer amount, pays it to the taker's
   * receive account; the vault and the record are gone. The initializer's
   * receive account, although checked against the record, is never credited.
   */
  lemma ExchangeSettles(s: State, signers: set<Key>, a: ExchangeAccounts)
    requires Exchange(s, signers, a).Ok?
    requires a.takerDepositTokenAccount != a.initializerDepositTokenAccount
    requires a.takerDepositTokenAccount != a.takerReceiveTokenAccount
    requires a.takerDepositTokenAccount != a.vaultAccount
    requires a.initializerDepositTokenAccount != a.takerReceiveTokenAccount
    requires a.initializerDepositTokenAccount != a.vaultAccount
    requires a.takerReceiveTokenAccount != a.vaultAccount
    ensures var s' := Exchange(s, signers, a).value;
            var escrow := s.records[a.escrowAccount].escrow;
            && a.takerDepositTokenAccount in s'.tokens
            && a.initializerDepositTokenAccount in s'.tokens
            && a.takerReceiveTokenAccount in s'.tokens
            && s'.tokens[a.takerDepositTokenAccount].amount
               == s.tokens[a.takerDepositTokenAccount].amount - escrow.takerAmount
            && s'.tokens[a.initializerDepositTokenAccount].amount
               == s.tokens[a.initializerDepositTokenAccount].amount + escrow.takerAmount
            && s'.tokens[a.takerReceiveTokenAccount].amount
               == s.tokens[a.takerReceiveTokenAccount].amount + escrow.initializerAmount
            && s.tokens[a.vaultAccount].amount == escrow.initializerAmount
            && a.vaultAccount !in s'.tokens
            && a.escrowAccount !in s'.records
            && (forall k | k in s.tokens && k != a.vaultAccount && k != a.takerDepositTokenAccount
                           && k != a.initializerDepositTokenAccount && k != a.takerReceiveTokenAccount ::
                  k in s'.tokens && s'.tokens[k] == s.tokens[k])
  {
  }

  /**
   * The initializer can always take a fresh deal back: right after a
   * successful initialize, a cancel signed by the initializer, naming the
   * vault and its derived authority, succeeds and restores every token
   * account to what it was before the deal; only the record is closed.
   */
  lemma {:induction false} CancelUndoesInitialize(s: State, signers: set<Key>, a: InitializeEscrowAccounts,
                                                  initializerAmount: U64, takerAmount: U64)
    requires a.initializer.Wallet?
    requires InitializeEscrow(s, signers, a, initializerAmount, takerAmount).Ok?
    ensures var deal := InitializeEscrow(s, signers, a, initializerAmount, takerAmount).value;
            var cancel := CancelEscrowAccounts(a.initializer, a.initializerDepositTokenAccount,
                                               VaultAddress, VaultAuthority, a.escrowAccount);
            && CancelEscrow(deal, {a.initializer}, cancel).Ok?
            && CancelEscrow(deal, {a.initializer}, cancel).value.tokens == s.tokens
            && CancelEscrow(deal, {a.initializer}, cancel).value.records == s.records - {a.escrowAccount}
  {
    var deal := InitializeEscrow(s, signers, a, initializerAmount, takerAmount).value;
    var cancel := CancelEscrowAccounts(a.initializer, a.initializerDepositTokenAccount,
                                       VaultAddress, VaultAuthority, a.escrowAccount);
    var deposit := a.initializerDepositTokenAccount;
    assert deposit in s.tokens && VaultAddress !in s.tokens;
    assert Credited(s.tokens, deal.tokens, deposit, -(initializerAmount as int));
    assert CanTransfer(deal.tokens, cancel.AsTransferToInitializerContext(),
                       WithVaultAuthority({a.initializer}), initializerAmount);
    var after := CancelEscrow(deal, {a.initializer}, cancel).value;
    forall k | k in s.tokens ensures k in after.tokens && after.tokens[k] == s.tokens[k] {
      assert Credited(s.tokens, deal.tokens, k, if k == deposit then -(initializerAmount as int) else 0);
      assert Credited(deal.tokens, after.tokens, k, Delta(k, VaultAddress, deposit, initializerAmount));
    }
    assert after.tokens == s.tokens;
  }

  /**
   * Between four distinct accounts, an exchange succeeds exactly when the
   * taker is authorized, the taker's payment and the vault's release are both
   * transfers the token program accepts, the vault is not the initializer's
   * own address, and the vault held exactly the initializer amount, so that
   * it can be closed.
   */
  lemma {:induction false} ExchangeProgress(s: State, signers: set<Key>, a: ExchangeAccounts)
    requires a.takerDepositTokenAccount != a.initializerDepositTokenAccount
    requires a.takerDepositTokenAccount != a.takerReceiveTokenAccount
    requires a.takerDepositTokenAccount != a.vaultAccount
    requires a.initializerDepositTokenAccount != a.takerReceiveTokenAccount
    requires a.initializerDepositTokenAccount != a.vaultAccount
    requires a.takerReceiveTokenAccount != a.vaultAccount
    ensures Exchange(s, signers, a).Ok? <==>
      && ExchangeAuthorized(s, signers, a)
      && a.initializerReceiveTokenAccount in s.tokens
      && var escrow := s.records[a.escrowAccount].escrow;
      && CanTransfer(s.tokens, a.AsTransferToInitializerContext(), signers, escrow.takerAmount)
      && CanTransfer(s.tokens, a.AsTransferToTakerContext(), WithVaultAuthority(signers), escrow.initializerAmount)
      && a.vaultAccount != a.initializer
      && s.tokens[a.vaultAccount].amount == escrow.initializerAmount
  {
  }

  /** Once a cancel has closed a deal, neither a second cancel nor an exchange against its record succeeds. */
  lemma CancelledDealStaysClosed(s: State, signers: set<Key>, a: CancelEscrowAccounts,
                                 signers': set<Key>, cancel: CancelEscrowAccounts, exchange: ExchangeAccounts)
    requires CancelEscrow(s, signers, a).Ok?
    requires cancel.escrowAccount == a.escrowAccount && exchange.escrowAccount == a.escrowAccount
    ensures CancelEscrow(CancelEscrow(s, signers, a).value, signers', cancel).Err?
    ensures Exchange(CancelEscrow(s, signers, a).value, signers', exchange).Err?
  {
  }

  /** Once an exchange has closed a deal, neither a cancel nor a second exchange against its record succeeds. */
  lemma ExchangedDealStaysClosed(s: State, signers: set<Key>, a: ExchangeAccounts,
                                 signers': set<Key>, cancel: CancelEscrowAccounts, exchange: ExchangeAccounts)
    requires Exchange(s, signers, a).Ok?
    requires cancel.escrowAccount == a.escrowAccount && exchange.escrowAccount == a.escrowAccount
    ensures CancelEscrow(Exchange(s, signers, a).value, signers', cancel).Err?
    ensures Exchange(Exchange(s, signers, a).value, signers', exchange).Err?
  {
  }

  /**
   * Anyone holding tokens of the vault's mint can pay into the vault, so the
   * vault can hold more than the deal's deposit.
   */
  lemma AnyoneCanTopUpVault(s: State, k: Key, payer: Key, from: Key)
    requires Inv(s) && s.IsOpen(k)
    requires payer.Wallet? && from in s.tokens && s.tokens[from].owner == payer
    requires VaultAddress in s.tokens && s.tokens[from].mint == s.tokens[VaultAddress].mint
    requires s.tokens[from].amount >= 1 && s.tokens[VaultAddress].amount < MaxU64
    ensures var s' := Step(s, TransferTx({payer}, TransferContext(from, VaultAddress, payer), 1));
            && s'.IsOpen(k)
            && VaultAddress in s'.tokens
            && s'.tokens[VaultAddress].amount > s.records[k].escrow.initializerAmount
  {
  }

  /**
   * A vault holding more than the open deal's deposit can be neither refunded
   * nor released: both instructions move out only the stored amount and then
   * fail to close a vault that still holds tokens.
   */
  lemma SurplusLocksVault(s: State, k: Key, signers: set<Key>, cancel: CancelEscrowAccounts,
                          exchange: ExchangeAccounts)
    requires Inv(s) && HostAdmits(signers) && s.IsOpen(k)
    requires VaultAddress in s.tokens
    requires s.tokens[VaultAddress].amount > s.records[k].escrow.initializerAmount
    requires cancel.vaultAccount == VaultAddress && exchange.vaultAccount == VaultAddress
    ensures CancelEscrow(s, signers, cancel).Err?
    ensures Exchange(s, signers, exchange).Err?
  {
  }

  /** With the vault present and no deal open, no transaction can open a deal or take the vault away. */
  lemma StrandedVaultStep(s: State, act: Action)
    requires Inv(s) && VaultAddress in s.tokens && forall k :: !s.IsOpen(k)
    ensures var s' := Step(s, act);
            && VaultAddress in s'.tokens
            && s'.tokens[VaultAddress].amount >= s.tokens[VaultAddress].amount
            && forall k :: !s'.IsOpen(k)
  {
    if act.IsExternal() {
      ExternalCallsCannotDrainVault(s, act);
      assert forall k :: Step(s, act).IsOpen(k) ==> s.IsOpen(k);
    }
  }

  /**
   * A vault left behind with no open deal is stranded for good: it stays,
   * with at least its balance, and no deal can ever be opened again, because
   * the vault address is taken.
   */
  lemma {:induction false} StrandedVaultStaysStranded(s: State, acts: seq<Action>)
    requires Inv(s) && VaultAddress in s.tokens && forall k :: !s.IsOpen(k)
    ensures var s' := Run(s, acts);
            && VaultAddress in s'.tokens
            && s'.tokens[VaultAddress].amount >= s.tokens[VaultAddress].amount
            && forall k :: !s'.IsOpen(k)
    decreases |acts|
  {
    if acts != [] {
      StrandedVaultStep(s, acts[0]);
      StepKeepsInv(s, acts[0]);
      StrandedVaultStaysStranded(Step(s, acts[0]), acts[1..]);
    }
  }
}
