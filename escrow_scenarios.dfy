/**
 * Two concrete runs: the cross-asset swap the escrow is meant for, which the
 * instructions reject because the taker pays into the initializer's deposit
 * account; and an exchange against a borrowed "vault" that settles the deal
 * while the real vault is stranded.
 */
module EscrowScenarios {
  import opened Results
  import opened TokenLedger
  import opened EscrowAccounts
  import opened EscrowSpec
  import opened EscrowInvariants
  import opened EscrowProperties

  const Initializer: Key := Wallet(1)
  const Taker: Key := Wallet(2)
  // A mint is only an address to the ledger: it is compared, never asked to sign,
  // so the scenario gives the two mints plain addresses of their own.
  const MintA: Key := Wallet(10)
  const MintB: Key := Wallet(11)
  const InitializerDepositA: Key := Wallet(20)
  const InitializerReceiveB: Key := Wallet(21)
  const TakerDepositB: Key := Wallet(22)
  const TakerReceiveA: Key := Wallet(23)
  const TakerDepositA: Key := Wallet(24)
  const TakerSpareA: Key := Wallet(25)
  const Record: Key := Wallet(30)

  /** Before the deal: the initializer holds 100 of A and wants 50 of B; the taker holds 50 of B and 50 of A. */
  function Before(): State
  {
    State(map[InitializerDepositA := TokenAccount(MintA, Initializer, 100),
              InitializerReceiveB := TokenAccount(MintB, Initializer, 0),
              TakerDepositB := TokenAccount(MintB, Taker, 50),
              TakerReceiveA := TokenAccount(MintA, Taker, 0),
              TakerDepositA := TokenAccount(MintA, Taker, 50),
              TakerSpareA := TokenAccount(MintA, Taker, 100)],
          map[Record := Zeroed])
  }

  function Deal(): InitializeEscrowAccounts
  {
    InitializeEscrowAccounts(Initializer, MintA, VaultAddress, InitializerDepositA, InitializerReceiveB, Record)
  }

  /**
   * The initializer locks 100 of A asking 50 in return. A taker paying with
   * 50 of B is refused by the token program, because the payment goes to the
   * initializer's A deposit account; paying with 50 of A is accepted.
   */
  lemma {:induction false} CrossAssetSwapIsRejected()
    ensures InitializeEscrow(Before(), {Initializer}, Deal(), 100, 50).Ok?
    ensures var open := InitializeEscrow(Before(), {Initializer}, Deal(), 100, 50).value;
            && Exchange(open, {Taker},
                        ExchangeAccounts(Taker, TakerDepositB, TakerReceiveA, InitializerDepositA,
                                         InitializerReceiveB, Initializer, Record,
                                         VaultAddress, VaultAuthority))
               == Err(Token(MintMismatch))
            && Exchange(open, {Taker},
                        ExchangeAccounts(Taker, TakerDepositA, TakerReceiveA, InitializerDepositA,
                                         InitializerReceiveB, Initializer, Record,
                                         VaultAddress, VaultAuthority)).Ok?
  {
    var s := Before();
    assert CheckInitializeEscrow(s, {Initializer}, Deal(), 100).Pass?;
    var open := InitializeEscrow(s, {Initializer}, Deal(), 100, 50).value;
    assert open.tokens[VaultAddress] == TokenAccount(MintA, VaultAuthority, 100);
    assert open.tokens[InitializerDepositA].amount == 0;
    assert open.tokens[TakerDepositB] == s.tokens[TakerDepositB];
    assert open.tokens[TakerDepositA] == s.tokens[TakerDepositA];
    assert open.tokens[TakerReceiveA] == s.tokens[TakerReceiveA];
    assert open.tokens[InitializerReceiveB] == s.tokens[InitializerReceiveB];
    var pay := ExchangeAccounts(Taker, TakerDepositA, TakerReceiveA, InitializerDepositA,
                                InitializerReceiveB, Initializer, Record, VaultAddress, VaultAuthority);
    assert CheckExchange(open, {Taker}, pay).Pass?;
    var paid := Transfer(open.tokens, pay.AsTransferToInitializerContext(), {Taker}, 50);
    assert paid.Ok?;
    assert Credited(open.tokens, paid.value, VaultAddress, 0);
    assert Credited(open.tokens, paid.value, TakerReceiveA, 0);
    var released := Transfer(paid.value, pay.AsTransferToTakerContext(), WithVaultAuthority({Taker}), 100);
    assert released.Ok?;
    assert Credited(paid.value, released.value, VaultAddress, -100);
  }

  /** The deal opened, with the taker also holding a spare 100 of A. */
  function Opened(): State
  {
    InitializeEscrow(Before(), {Initializer}, Deal(), 100, 50).value
  }

  /** The taker names its own spare account as the vault and itself as the vault authority. */
  function Borrowed(): ExchangeAccounts
  {
    ExchangeAccounts(Taker, TakerDepositA, TakerReceiveA, InitializerDepositA,
                     InitializerReceiveB, Initializer, Record, TakerSpareA, Taker)
  }

  /** The borrowed-vault exchange succeeds and leaves the real vault behind with no deal open. */
  lemma {:induction false} BorrowedVaultExchange()
    ensures InitializeEscrow(Before(), {Initializer}, Deal(), 100, 50).Ok?
    ensures var r := Exchange(Opened(), {Taker}, Borrowed());
            && r.Ok?
            && Inv(r.value)
            && VaultAddress in r.value.tokens
            && r.value.tokens[VaultAddress].amount == 100
            && forall k :: !r.value.IsOpen(k)
  {
  }

  /**
   * The exchange never checks which account it releases from: a taker can
   * name its own account of A as the vault and itself as the vault authority.
   * It pays 50 of A and gets its own 100 of A back; the deal is closed, and
   * the real vault, still holding the initializer's 100 of A, is stranded
   * whatever happens next.
   */
  lemma {:induction false} BorrowedVaultStrandsDeposit(acts: seq<Action>)
    ensures InitializeEscrow(Before(), {Initializer}, Deal(), 100, 50).Ok?
    ensures var r := Exchange(Opened(), {Taker}, Borrowed());
            && r.Ok?
            && !r.value.IsOpen(Record)
            && var s' := Run(r.value, acts);
            && VaultAddress in s'.tokens
            && s'.tokens[VaultAddress].amount >= 100
            && forall k :: !s'.IsOpen(k)
  {
    BorrowedVaultExchange();
    StrandedVaultStaysStranded(Exchange(Opened(), {Taker}, Borrowed()).value, acts);
  }
}
