/**
 * The escrow program's instruction handlers, run against the ledger and the
 * record accounts held as fields. Each handler checks its account
 * constraints, stores or reads the record, then makes its token-program calls
 * in order; the first failure returns its error, and since the fields are
 * written only after every call has succeeded, a failed instruction leaves
 * them as they were, as the host's transaction rollback does.
 */
module EscrowProgram {
  import opened Results
  import opened TokenLedger
  import opened EscrowAccounts
  import opened EscrowSpec
  import opened EscrowInvariants

  class Program {
    var tokens: Ledger
    var records: map<Key, RecordSlot>

    function Snapshot(): State
      reads this
    {
      State(tokens, records)
    }

    ghost predicate Valid()
      reads this
    {
      Inv(Snapshot())
    }

    /** A program over an existing ledger and a set of zeroed record accounts. */
    constructor (ledger: Ledger, recordAccounts: set<Key>)
      requires ledger.Keys !! recordAccounts
      requires VaultAddress in ledger ==> ledger[VaultAddress].owner == VaultAuthority
      ensures Valid()
      ensures tokens == ledger
      ensures records.Keys == recordAccounts
      ensures forall k | k in records :: records[k] == Zeroed
    {
      tokens := ledger;
      records := map k | k in recordAccounts :: Zeroed;
    }

    /** `initialize_escrow`. */
    method InitializeEscrow(signers: set<Key>, a: InitializeEscrowAccounts,
                            initializerAmount: U64, takerAmount: U64) returns (r: Outcome<EscrowError>)
      requires Valid()
      modifies this
      ensures Valid()
      ensures Commits(old(Snapshot()),
                      EscrowSpec.InitializeEscrow(old(Snapshot()), signers, a, initializerAmount, takerAmount),
                      Snapshot(), r)
    {
      var check := CheckInitializeEscrow(Snapshot(), signers, a, initializerAmount);
      if check.Fail? {
        return Fail(check.error);
      }
      var escrow := EscrowAccount(a.initializer, a.initializerDepositTokenAccount,
                                  a.initializerReceiveTokenAccount, initializerAmount, takerAmount);
      // `init` creates the vault for `mint`, owned by the initializer
      var ledger := tokens[a.vaultAccount := TokenAccount(a.mint, a.initializer, 0)];
      match SetAuthority(ledger, a.AsSetAuthorityContext(), signers, VaultAuthority) {
        case Err(e) => return Fail(Token(e));
        case Ok(handedOver) => ledger := handedOver;
      }
      var funded := Transfer(ledger, a.AsTransferToPdaContext(), signers, initializerAmount);
      if funded.Err? {
        return Fail(Token(funded.error));
      }
      ghost var before := Snapshot();
      tokens := funded.value;
      records := records[a.escrowAccount := Holds(escrow)];
      InitializeKeepsInv(before, signers, a, initializerAmount, takerAmount);
      r := Pass;
    }

    /** `cancel_escrow`. */
    method CancelEscrow(signers: set<Key>, a: CancelEscrowAccounts) returns (r: Outcome<EscrowError>)
      requires Valid()
      modifies this
      ensures Valid()
      ensures Commits(old(Snapshot()), EscrowSpec.CancelEscrow(old(Snapshot()), signers, a), Snapshot(), r)
    {
      var check := CheckCancelEscrow(Snapshot(), signers, a);
      if check.Fail? {
        return Fail(check.error);
      }
      var escrow := records[a.escrowAccount].escrow;
      var programSigners := WithVaultAuthority(signers);
      // refund the stored deposit out of the vault, with the derived authority among the signers
      var refunded := Transfer(tokens, a.AsTransferToInitializerContext(), programSigners,
                               escrow.initializerAmount);
      if refunded.Err? {
        return Fail(Token(refunded.error));
      }
      // close vault, then the record (`close = initializer`)
      var closed := CloseAccount(refunded.value, a.AsCloseContext(), programSigners);
      if closed.Err? {
        return Fail(Token(closed.error));
      }
      ghost var before := Snapshot();
      tokens := closed.value;
      records := records - {a.escrowAccount};
      CancelKeepsInv(before, signers, a);
      r := Pass;
    }

    /** `exchange`. */
    method Exchange(signers: set<Key>, a: ExchangeAccounts) returns (r: Outcome<EscrowError>)
      requires Valid()
      modifies this
      ensures Valid()
      ensures Commits(old(Snapshot()), EscrowSpec.Exchange(old(Snapshot()), signers, a), Snapshot(), r)
    {
      var check := CheckExchange(Snapshot(), signers, a);
      if check.Fail? {
        return Fail(check.error);
      }
      var escrow := records[a.escrowAccount].escrow;
      // the taker pays the asked amount into the deposit account on record
      var paid := Transfer(tokens, a.AsTransferToInitializerContext(), signers, escrow.takerAmount);
      if paid.Err? {
        return Fail(Token(paid.error));
      }
      var programSigners := WithVaultAuthority(signers);
      // transfer from the vault to the taker
      var released := Transfer(paid.value, a.AsTransferToTakerContext(), programSigners,
                               escrow.initializerAmount);
      if released.Err? {
        return Fail(Token(released.error));
      }
      // close vault, then the record (`close = initializer`)
      var closed := CloseAccount(released.value, a.AsCloseContext(), programSigners);
      if closed.Err? {
        return Fail(Token(closed.error));
      }
      ghost var before := Snapshot();
      tokens := closed.value;
      records := records - {a.escrowAccount};
      ExchangeKeepsInv(before, signers, a);
      r := Pass;
    }
  }
}
