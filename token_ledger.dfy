/**
 * The token program, seen only through the three instructions the escrow
 * program invokes on it: transfer, set-authority (account owner) and
 * close-account. A ledger maps an account address to its mint, its owner
 * (the authority that may move or close it) and its balance.
 */
module TokenLedger {
  import opened Results

  const MaxU64: int := 0xFFFF_FFFF_FFFF_FFFF

  /** Token amounts are unsigned 64-bit integers. */
  type U64 = x: int | 0 <= x <= MaxU64

  /**
   * An account address. A `Wallet` address has a private key and can sign a
   * transaction. A `Derived` address is derived by the escrow program from a
   * seed; it has no private key, and only the program can sign for it.
   */
  datatype Key = Wallet(id: nat) | Derived(seed: string)

  datatype TokenAccount = TokenAccount(mint: Key, owner: Key, amount: U64)

  type Ledger = map<Key, TokenAccount>

  datatype TokenError =
    | UninitializedAccount
    | InsufficientFunds
    | MintMismatch
    | OwnerMismatch
    | MissingRequiredSignature
    | Overflow
    | NonNativeHasBalance
    | InvalidAccountData

  /** Who pays whom, under which authority. */
  datatype TransferContext = TransferContext(from: Key, to: Key, authority: Key)

  /** Which account changes owner, and the authority that currently owns it. */
  datatype SetAuthorityContext = SetAuthorityContext(accountOrMint: Key, currentAuthority: Key)

  /** Which account is closed, who gets its rent, and the authority that closes it. */
  datatype CloseContext = CloseContext(account: Key, destination: Key, authority: Key)

  /** The owner check: the authority is the account's owner and signed the call. */
  predicate OwnerSigned(account: TokenAccount, authority: Key, signers: set<Key>)
  {
    account.owner == authority && authority in signers
  }

  /** The balance change of account `k` when `amount` moves from `from` to `to`. */
  function Delta(k: Key, from: Key, to: Key, amount: int): int
  {
    (if k == to then amount else 0) - (if k == from then amount else 0)
  }

  /** Account `k` exists in both ledgers, keeps its mint and owner, and its balance changed by `change`. */
  ghost predicate Credited(l: Ledger, l': Ledger, k: Key, change: int)
  {
    && k in l && k in l'
    && l'[k].mint == l[k].mint
    && l'[k].owner == l[k].owner
    && l'[k].amount == l[k].amount + change
  }

  /** Everything a transfer demands before it moves anything. */
  predicate CanTransfer(l: Ledger, ctx: TransferContext, signers: set<Key>, amount: int)
  {
    && ctx.from in l && ctx.to in l
    && amount <= l[ctx.from].amount
    && l[ctx.from].mint == l[ctx.to].mint
    && OwnerSigned(l[ctx.from], ctx.authority, signers)
    && (ctx.from == ctx.to || l[ctx.to].amount + amount <= MaxU64)
  }

  /**
   * The token program's transfer: checks the balance, the mints and the
   * owner's signature, in that order; a transfer to the same account moves
   * nothing; the receiving balance may not pass 2^64 - 1.
   */
  function Transfer(l: Ledger, ctx: TransferContext, signers: set<Key>, amount: U64): (r: Result<Ledger, TokenError>)
    ensures r.Ok? <==> CanTransfer(l, ctx, signers, amount)
    ensures ctx.from in l && ctx.to in l && l[ctx.from].amount < amount ==> r == Err(InsufficientFunds)
    ensures r.Ok? ==> r.value.Keys == l.Keys
    ensures r.Ok? ==> forall k | k in l :: Credited(l, r.value, k, Delta(k, ctx.from, ctx.to, amount))
  {
    if ctx.from !in l || ctx.to !in l then Err(UninitializedAccount)
    else
      var source, dest := l[ctx.from], l[ctx.to];
      if source.amount < amount then Err(InsufficientFunds)
      else if source.mint != dest.mint then Err(MintMismatch)
      else if source.owner != ctx.authority then Err(OwnerMismatch)
      else if ctx.authority !in signers then Err(MissingRequiredSignature)
      else if ctx.from == ctx.to then Ok(l)
      else if dest.amount + amount > MaxU64 then Err(Overflow)
      else
        Ok(l[ctx.from := source.(amount := source.amount - amount)]
            [ctx.to := dest.(amount := dest.amount + amount)])
  }

  /** The token program's set-authority for the account-owner authority type. */
  function SetAuthority(l: Ledger, ctx: SetAuthorityContext, signers: set<Key>, newOwner: Key): (r: Result<Ledger, TokenError>)
    ensures r.Ok? <==> ctx.accountOrMint in l && OwnerSigned(l[ctx.accountOrMint], ctx.currentAuthority, signers)
    ensures r.Ok? ==> r.value.Keys == l.Keys
    ensures r.Ok? ==> forall k | k in l && k != ctx.accountOrMint :: r.value[k] == l[k]
    ensures r.Ok? ==> r.value[ctx.accountOrMint].owner == newOwner
    ensures r.Ok? ==> r.value[ctx.accountOrMint].mint == l[ctx.accountOrMint].mint
    ensures r.Ok? ==> r.value[ctx.accountOrMint].amount == l[ctx.accountOrMint].amount
  {
    if ctx.accountOrMint !in l then Err(UninitializedAccount)
    else
      var account := l[ctx.accountOrMint];
      if account.owner != ctx.currentAuthority then Err(OwnerMismatch)
      else if ctx.currentAuthority !in signers then Err(MissingRequiredSignature)
      else Ok(l[ctx.accountOrMint := account.(owner := newOwner)])
  }

  /**
   * The token program's close-account: the account must not be its own rent
   * destination, must hold no tokens, and must be closed by its owner.
   */
  function CloseAccount(l: Ledger, ctx: CloseContext, signers: set<Key>): (r: Result<Ledger, TokenError>)
    ensures r.Ok? <==>
      && ctx.account in l
      && ctx.account != ctx.destination
      && l[ctx.account].amount == 0
      && OwnerSigned(l[ctx.account], ctx.authority, signers)
    ensures ctx.account in l && ctx.account != ctx.destination && l[ctx.account].amount != 0 ==>
      r == Err(NonNativeHasBalance)
    ensures r.Ok? ==> r.value.Keys == l.Keys - {ctx.account}
    ensures r.Ok? ==> forall k | k in r.value :: r.value[k] == l[k]
  {
    if ctx.account !in l then Err(UninitializedAccount)
    else if ctx.account == ctx.destination then Err(InvalidAccountData)
    else
      var account := l[ctx.account];
      if account.amount != 0 then Err(NonNativeHasBalance)
      else if account.owner != ctx.authority then Err(OwnerMismatch)
      else if ctx.authority !in signers then Err(MissingRequiredSignature)
      else Ok(l - {ctx.account})
  }

  /**
   * A transfer is undone by the reverse transfer of the same amount, signed by
   * the owner of the account that received it.
   */
  lemma {:induction false} TransferRoundTrip(l: Ledger, ctx: TransferContext, signers: set<Key>, amount: U64,
                                             backAuthority: Key, backSigners: set<Key>)
    requires Transfer(l, ctx, signers, amount).Ok?
    requires ctx.to in l && OwnerSigned(l[ctx.to], backAuthority, backSigners)
    ensures Transfer(Transfer(l, ctx, signers, amount).value,
                     TransferContext(ctx.to, ctx.from, backAuthority), backSigners, amount) == Ok(l)
  {
    var l1 := Transfer(l, ctx, signers, amount).value;
    var back := TransferContext(ctx.to, ctx.from, backAuthority);
    assert Credited(l, l1, ctx.from, Delta(ctx.from, ctx.from, ctx.to, amount));
    assert Credited(l, l1, ctx.to, Delta(ctx.to, ctx.from, ctx.to, amount));
    assert CanTransfer(l1, back, backSigners, amount);
    var l2 := Transfer(l1, back, backSigners, amount).value;
    forall k | k in l ensures l2[k] == l[k] {
      assert Credited(l, l1, k, Delta(k, ctx.from, ctx.to, amount));
      assert Credited(l1, l2, k, Delta(k, ctx.to, ctx.from, amount));
    }
    assert l2 == l;
  }

  /**
   * Only the owner's signature can take tokens out of an account: a transfer,
   * owner change or close that succeeds without the owner among the signers
   * leaves the account in place, with its owner and at least its balance.
   */
  lemma {:induction false} UnsignedAccountIsSafe(l: Ledger, k: Key, signers: set<Key>,
                                                 t: TransferContext, amount: U64,
                                                 a: SetAuthorityContext, newOwner: Key,
                                                 c: CloseContext)
    requires k in l && l[k].owner !in signers
    ensures Transfer(l, t, signers, amount).Ok? ==>
      var l' := Transfer(l, t, signers, amount).value;
      k in l' && l'[k].owner == l[k].owner && l'[k].amount >= l[k].amount
    ensures SetAuthority(l, a, signers, newOwner).Ok? ==>
      SetAuthority(l, a, signers, newOwner).value[k] == l[k]
    ensures CloseAccount(l, c, signers).Ok? ==>
      var l' := CloseAccount(l, c, signers).value;
      k in l' && l'[k] == l[k]
  {
  }
}
