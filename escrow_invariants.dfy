/**
 * The escrow program inside its environment: every transaction the host
 * admits is an escrow instruction, a direct token-program call by some other
 * party, or the creation of a fresh account. The invariant below holds in
 * every state such transactions reach, and the lemmas state what it buys.
 */
module EscrowInvariants {
  import opened Results
  import opened TokenLedger
  import opened EscrowAccounts
  import opened EscrowSpec

  /** The vault backs deal `e`: it exists, holds at least the deposit, and is not the deal's deposit account. */
  predicate VaultBacks(s: State, e: EscrowAccount)
  {
    && VaultAddress in s.tokens
    && s.tokens[VaultAddress].amount >= e.initializerAmount
    && e.initializerDepositTokenAccount != VaultAddress
  }

  /**
   * Token accounts and record accounts live at different addresses; the vault
   * is always owned by the vault authority; an open deal is backed by the
   * vault; and at most one deal is open, since there is only one vault address.
   */
  ghost predicate Inv(s: State)
  {
    && s.tokens.Keys !! s.records.Keys
    && (VaultAddress in s.tokens ==> s.tokens[VaultAddress].owner == VaultAuthority)
    && (forall k | s.IsOpen(k) :: VaultBacks(s, s.records[k].escrow))
    && (forall k1, k2 | s.IsOpen(k1) && s.IsOpen(k2) :: k1 == k2)
  }

  /** The host admits only transactions signed by keys that have a private key. */
  predicate HostAdmits(signers: set<Key>)
  {
    forall k | k in signers :: k.Wallet?
  }

  /** One transaction, with the keys that signed it. */
  datatype Action =
    | InitializeEscrowTx(signers: set<Key>, initialize: InitializeEscrowAccounts,
                         initializerAmount: U64, takerAmount: U64)
    | CancelEscrowTx(signers: set<Key>, cancel: CancelEscrowAccounts)
    | ExchangeTx(signers: set<Key>, exchange: ExchangeAccounts)
    | TransferTx(signers: set<Key>, transfer: TransferContext, amount: U64)
    | SetAuthorityTx(signers: set<Key>, setAuthority: SetAuthorityContext, newOwner: Key)
    | CloseAccountTx(signers: set<Key>, close: CloseContext)
    | CreateTokenAccountTx(signers: set<Key>, address: Key, mint: Key, owner: Key)
    | CreateRecordAccountTx(signers: set<Key>, address: Key)
  {
    /** A call that does not go through the escrow program. */
    predicate IsExternal()
    {
      !(InitializeEscrowTx? || CancelEscrowTx? || ExchangeTx?)
    }
  }

  /** The effect of one transaction: a rejected one leaves the state as it was. */
  function Step(s: State, act: Action): State
  {
    if !HostAdmits(act.signers) then s
    else match act
      case InitializeEscrowTx(signers, a, initializerAmount, takerAmount) =>
        Settle(s, InitializeEscrow(s, signers, a, initializerAmount, takerAmount))
      case CancelEscrowTx(signers, a) => Settle(s, CancelEscrow(s, signers, a))
      case ExchangeTx(signers, a) => Settle(s, Exchange(s, signers, a))
      case TransferTx(signers, ctx, amount) => SettleTokens(s, Transfer(s.tokens, ctx, signers, amount))
      case SetAuthorityTx(signers, ctx, newOwner) => SettleTokens(s, SetAuthority(s.tokens, ctx, signers, newOwner))
      case CloseAccountTx(signers, ctx) => SettleTokens(s, CloseAccount(s.tokens, ctx, signers))
      case CreateTokenAccountTx(signers, k, mint, owner) =>
        if k in signers && !s.InUse(k) then s.(tokens := s.tokens[k := TokenAccount(mint, owner, 0)]) else s
      case CreateRecordAccountTx(signers, k) =>
        if k in signers && !s.InUse(k) then s.(records := s.records[k := Zeroed]) else s
  }

  function Settle(s: State, r: Result<State, EscrowError>): State
  {
    if r.Ok? then r.value else s
  }

  function SettleTokens(s: State, r: Result<Ledger, TokenError>): State
  {
    if r.Ok? then s.(tokens := r.value) else s
  }

  /** The state after a sequence of transactions. */
  function Run(s: State, acts: seq<Action>): State
    decreases |acts|
  {
    if acts == [] then s else Run(Step(s, acts[0]), acts[1..])
  }

  /**
   * A successful initialize keeps the invariant. It can only run while no
   * deal is open, since an open deal occupies the vault address, and it opens
   * exactly one deal, in the record account it was given.
   */
  lemma InitializeKeepsInv(s: State, signers: set<Key>, a: InitializeEscrowAccounts,
                           initializerAmount: U64, takerAmount: U64)
    requires Inv(s)
    requires InitializeEscrow(s, signers, a, initializerAmount, takerAmount).Ok?
    ensures Inv(InitializeEscrow(s, signers, a, initializerAmount, takerAmount).value)
    ensures forall k :: !s.IsOpen(k)
    ensures forall k :: InitializeEscrow(s, signers, a, initializerAmount, takerAmount).value.IsOpen(k)
                        <==> k == a.escrowAccount
  {
  }

  /** A successful cancel keeps the invariant and leaves no deal open. */
  lemma CancelKeepsInv(s: State, signers: set<Key>, a: CancelEscrowAccounts)
    requires Inv(s)
    requires CancelEscrow(s, signers, a).Ok?
    ensures Inv(CancelEscrow(s, signers, a).value)
    ensures forall k :: !CancelEscrow(s, signers, a).value.IsOpen(k)
  {
    var s' := CancelEscrow(s, signers, a).value;
    forall k | s'.IsOpen(k) ensures false {
      assert s.IsOpen(k) && s.IsOpen(a.escrowAccount);
    }
  }

  /** A successful exchange keeps the invariant and leaves no deal open. */
  lemma ExchangeKeepsInv(s: State, signers: set<Key>, a: ExchangeAccounts)
    requires Inv(s)
    requires Exchange(s, signers, a).Ok?
    ensures Inv(Exchange(s, signers, a).value)
    ensures forall k :: !Exchange(s, signers, a).value.IsOpen(k)
  {
    var s' := Exchange(s, signers, a).value;
    forall k | s'.IsOpen(k) ensures false {
      assert s.IsOpen(k) && s.IsOpen(a.escrowAccount);
    }
  }

  /**
   * No call that bypasses the escrow program can take the vault away, change
   * its owner or lower its balance: that would need the vault authority's
   * signature, which only the program can give.
   */
  lemma {:induction false} ExternalCallsCannotDrainVault(s: State, act: Action)
    requires Inv(s) && act.IsExternal()
    requires VaultAddress in s.tokens
    ensures VaultAddress in Step(s, act).tokens
    ensures Step(s, act).tokens[VaultAddress].owner == VaultAuthority
    ensures Step(s, act).tokens[VaultAddress].amount >= s.tokens[VaultAddress].amount
  {
  }

  lemma ExternalKeepsInv(s: State, act: Action)
    requires Inv(s) && act.IsExternal()
    ensures Inv(Step(s, act))
  {
    var s' := Step(s, act);
    if HostAdmits(act.signers) {
      assert VaultAuthority !in act.signers;
      if VaultAddress in s.tokens {
        ExternalCallsCannotDrainVault(s, act);
      }
      forall k | s'.IsOpen(k) ensures VaultBacks(s', s'.records[k].escrow) {
        assert s.IsOpen(k);
      }
      forall k1, k2 | s'.IsOpen(k1) && s'.IsOpen(k2) ensures k1 == k2 {
        assert s.IsOpen(k1) && s.IsOpen(k2);
      }
    }
  }

  /** Every admitted transaction keeps the invariant. */
  lemma StepKeepsInv(s: State, act: Action)
    requires Inv(s)
    ensures Inv(Step(s, act))
  {
    if act.IsExternal() {
      ExternalKeepsInv(s, act);
    } else if HostAdmits(act.signers) {
      match act
      case InitializeEscrowTx(signers, a, initializerAmount, takerAmount) =>
        if InitializeEscrow(s, signers, a, initializerAmount, takerAmount).Ok? {
          InitializeKeepsInv(s, signers, a, initializerAmount, takerAmount);
        }
      case CancelEscrowTx(signers, a) =>
        if CancelEscrow(s, signers, a).Ok? {
          CancelKeepsInv(s, signers, a);
        }
      case ExchangeTx(signers, a) =>
        if Exchange(s, signers, a).Ok? {
          ExchangeKeepsInv(s, signers, a);
        }
    }
  }

  /** The invariant holds after any sequence of transactions. */
  lemma {:induction false} RunKeepsInv(s: State, acts: seq<Action>)
    requires Inv(s)
    ensures Inv(Run(s, acts))
    decreases |acts|
  {
    if acts != [] {
      StepKeepsInv(s, acts[0]);
      RunKeepsInv(Step(s, acts[0]), acts[1..]);
    }
  }

  /** Once an open deal is settled, the open deal's stored terms are never rewritten by any transaction. */
  lemma {:induction false} TermsNeverChange(s: State, act: Action, k: Key)
    requires s.IsOpen(k) && Step(s, act).IsOpen(k)
    ensures Step(s, act).records[k] == s.records[k]
  {
  }
}
