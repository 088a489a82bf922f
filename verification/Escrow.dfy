/** The escrow program: its three instruction handlers with their account constraints, over a
    ledger of SPL token accounts that other parties keep using.  A transaction that fails leaves
    the ledger as it was. */
module Escrow {
  import opened Common
  import opened MapSum

  type Pubkey = nat
  type U64 = n: nat | n < U64_LIMIT

  datatype TokenAccount = TokenAccount(mint: Pubkey, owner: Pubkey, amount: nat)

  datatype EscrowAccount = EscrowAccount(
    initializerKey: Pubkey,
    initializerDeposit: Pubkey,
    initializerReceive: Pubkey,
    initializerAmount: U64,
    takerAmount: U64)

  /** `pda` is the address derived from the program id and the seed "escrow"; it owns the deposits
      of all live escrows. */
  datatype Ledger = Ledger(pda: Pubkey, tokens: map<Pubkey, TokenAccount>, escrows: map<Pubkey, EscrowAccount>)

  datatype Error =
    | InvalidSignature
    | AccountNotInitialized
    | AccountInUse
    | ConstraintMut
    | ConstraintSigner
    | ConstraintRaw
    | ConstraintClose
    | TryingToInitPayerAsProgramAccount
    | OwnerMismatch
    | MintMismatch
    | InsufficientFunds
    | NonEmptyAccount
    | Overflow

  datatype Result = Ok(ledger: Ledger) | Err(error: Error) {
    predicate IsFailure() { Err? }
    function PropagateFailure(): Result
      requires Err?
    { this }
    function Extract(): Ledger
      requires Ok?
    { ledger }
  }

  datatype Instruction =
    // the escrow program
    | InitializeEscrow(initializer: Pubkey, initializerDeposit: Pubkey, initializerReceive: Pubkey,
                       escrow: Pubkey, initializerAmount: U64, takerAmount: U64)
    | CancelEscrow(initializer: Pubkey, pdaDeposit: Pubkey, pdaAccount: Pubkey, escrow: Pubkey)
    | Exchange(taker: Pubkey, takerDeposit: Pubkey, takerReceive: Pubkey, pdaDeposit: Pubkey,
               initializerReceive: Pubkey, initializerMain: Pubkey, escrow: Pubkey, pdaAccount: Pubkey)
    // the token program, called by anyone
    | TokenTransfer(source: Pubkey, target: Pubkey, authority: Pubkey, amount: U64)
    | TokenSetOwner(account: Pubkey, authority: Pubkey, newOwner: Pubkey)
    | TokenOpen(account: Pubkey, mint: Pubkey, owner: Pubkey)
    | TokenClose(account: Pubkey, authority: Pubkey)
    | TokenMint(account: Pubkey, amount: U64)
    | TokenBurn(account: Pubkey, authority: Pubkey, amount: U64)

  datatype Transaction = Transaction(ix: Instruction, signers: set<Pubkey>, writable: set<Pubkey>)

  // ------------------------------------------------------------------ token program

  /** set_authority(AccountOwner): the current owner must have signed. */
  function SetAuthority(l: Ledger, signers: set<Pubkey>, account: Pubkey, authority: Pubkey, newOwner: Pubkey): Result {
    if account !in l.tokens then Err(AccountNotInitialized)
    else if l.tokens[account].owner != authority || authority !in signers then Err(OwnerMismatch)
    else Ok(l.(tokens := l.tokens[account := l.tokens[account].(owner := newOwner)]))
  }

  /** transfer: a transfer of an account to itself is checked but moves nothing. */
  function Transfer(l: Ledger, signers: set<Pubkey>, source: Pubkey, target: Pubkey, authority: Pubkey,
                    amount: U64): Result {
    if source !in l.tokens || target !in l.tokens then Err(AccountNotInitialized)
    else if l.tokens[source].amount < amount then Err(InsufficientFunds)
    else if l.tokens[source].mint != l.tokens[target].mint then Err(MintMismatch)
    else if l.tokens[source].owner != authority || authority !in signers then Err(OwnerMismatch)
    else if source == target then Ok(l)
    else if l.tokens[target].amount + amount >= U64_LIMIT then Err(Overflow)
    else
      var debited := l.tokens[source := l.tokens[source].(amount := l.tokens[source].amount - amount)];
      Ok(l.(tokens := debited[target := debited[target].(amount := debited[target].amount + amount)]))
  }

  predicate InUse(l: Ledger, account: Pubkey) {
    account in l.tokens || account in l.escrows || account == l.pda
  }

  // ------------------------------------------------------------------ escrow program

  function Initialize(l: Ledger, tx: Transaction): Result
    requires tx.ix.InitializeEscrow?
  {
    var ix := tx.ix;
    if ix.initializer !in tx.signers then Err(ConstraintSigner)
    else if ix.initializerDeposit !in l.tokens || ix.initializerReceive !in l.tokens then Err(AccountNotInitialized)
    else if ix.initializer == ix.escrow then Err(TryingToInitPayerAsProgramAccount)
    else if InUse(l, ix.escrow) then Err(AccountInUse)
    else if ix.escrow !in tx.writable then Err(ConstraintMut)
    else if ix.escrow !in tx.signers then Err(ConstraintSigner)
    else if ix.initializer !in tx.writable then Err(ConstraintMut)
    else if ix.initializerDeposit !in tx.writable then Err(ConstraintMut)
    else if l.tokens[ix.initializerDeposit].amount < ix.initializerAmount then Err(ConstraintRaw)
    else
      var record := EscrowAccount(ix.initializer, ix.initializerDeposit, ix.initializerReceive,
                                  ix.initializerAmount, ix.takerAmount);
      SetAuthority(l.(escrows := l.escrows[ix.escrow := record]), tx.signers,
                   ix.initializerDeposit, ix.initializer, l.pda)
  }

  function Close(l: Ledger, escrow: Pubkey): Ledger {
    l.(escrows := l.escrows - {escrow})
  }

  function Cancel(l: Ledger, tx: Transaction): Result
    requires tx.ix.CancelEscrow?
  {
    var ix := tx.ix;
    if ix.pdaDeposit !in l.tokens || ix.escrow !in l.escrows then Err(AccountNotInitialized)
    else if !({ix.initializer, ix.pdaDeposit, ix.escrow} <= tx.writable) then Err(ConstraintMut)
    else
      var record := l.escrows[ix.escrow];
      if record.initializerKey != ix.initializer then Err(ConstraintRaw)
      else if record.initializerDeposit != ix.pdaDeposit then Err(ConstraintRaw)
      else if ix.escrow == ix.initializer then Err(ConstraintClose)
      else
        var l1 :- SetAuthority(l, tx.signers + {l.pda}, ix.pdaDeposit, ix.pdaAccount, record.initializerKey);
        Ok(Close(l1, ix.escrow))
  }

  predicate ExchangeAccountsExist(l: Ledger, ix: Instruction)
    requires ix.Exchange?
  {
    && ix.takerDeposit in l.tokens && ix.takerReceive in l.tokens && ix.pdaDeposit in l.tokens
    && ix.initializerReceive in l.tokens && ix.escrow in l.escrows
  }

  function SettleExchange(l: Ledger, tx: Transaction): Result
    requires tx.ix.Exchange?
  {
    var ix := tx.ix;
    if !ExchangeAccountsExist(l, ix) then Err(AccountNotInitialized)
    else if ix.taker !in tx.signers then Err(ConstraintSigner)
    else if !({ix.takerDeposit, ix.takerReceive, ix.pdaDeposit, ix.initializerReceive, ix.initializerMain, ix.escrow}
              <= tx.writable) then Err(ConstraintMut)
    else
      var record := l.escrows[ix.escrow];
      if l.tokens[ix.takerDeposit].amount < record.takerAmount then Err(ConstraintRaw)
      else if record.initializerDeposit != ix.pdaDeposit then Err(ConstraintRaw)
      else if record.initializerReceive != ix.initializerReceive then Err(ConstraintRaw)
      else if record.initializerKey != ix.initializerMain then Err(ConstraintRaw)
      else if ix.escrow == ix.initializerMain then Err(ConstraintClose)
      else
        var l1 :- Transfer(l, tx.signers + {l.pda}, ix.pdaDeposit, ix.takerReceive, ix.pdaAccount,
                           record.initializerAmount);
        var l2 :- Transfer(l1, tx.signers, ix.takerDeposit, ix.initializerReceive, ix.taker, record.takerAmount);
        var l3 :- SetAuthority(l2, tx.signers + {l.pda}, ix.pdaDeposit, ix.pdaAccount, record.initializerKey);
        Ok(Close(l3, ix.escrow))
  }

  // ------------------------------------------------------------------ the transition system

  /** Steps of other parties.  A mint's supply is the total its accounts hold, kept in 64 bits. */
  ghost function TokenStep(l: Ledger, tx: Transaction): Result
    requires !tx.ix.InitializeEscrow? && !tx.ix.CancelEscrow? && !tx.ix.Exchange?
  {
    match tx.ix
    case TokenTransfer(source, target, authority, amount) => Transfer(l, tx.signers, source, target, authority, amount)
    case TokenSetOwner(account, authority, newOwner) => SetAuthority(l, tx.signers, account, authority, newOwner)
    case TokenOpen(account, mint, owner) =>
      if InUse(l, account) then Err(AccountInUse)
      else Ok(l.(tokens := l.tokens[account := TokenAccount(mint, owner, 0)]))
    case TokenClose(account, authority) =>
      if account !in l.tokens then Err(AccountNotInitialized)
      else if l.tokens[account].amount != 0 then Err(NonEmptyAccount)
      else if l.tokens[account].owner != authority || authority !in tx.signers then Err(OwnerMismatch)
      else Ok(l.(tokens := l.tokens - {account}))
    case TokenMint(account, amount) =>
      if account !in l.tokens then Err(AccountNotInitialized)
      else if Total(l.tokens, l.tokens[account].mint) + amount >= U64_LIMIT then Err(Overflow)
      else Ok(l.(tokens := l.tokens[account := l.tokens[account].(amount := l.tokens[account].amount + amount)]))
    case TokenBurn(account, authority, amount) =>
      if account !in l.tokens then Err(AccountNotInitialized)
      else if l.tokens[account].amount < amount then Err(InsufficientFunds)
      else if l.tokens[account].owner != authority || authority !in tx.signers then Err(OwnerMismatch)
      else Ok(l.(tokens := l.tokens[account := l.tokens[account].(amount := l.tokens[account].amount - amount)]))
  }

  /** The program-derived address has no private key, so no transaction carries its signature. */
  ghost function Process(l: Ledger, tx: Transaction): Result {
    if l.pda in tx.signers then Err(InvalidSignature)
    else match tx.ix
      case InitializeEscrow(_, _, _, _, _, _) => Initialize(l, tx)
      case CancelEscrow(_, _, _, _) => Cancel(l, tx)
      case Exchange(_, _, _, _, _, _, _, _) => SettleExchange(l, tx)
      case _ => TokenStep(l, tx)
  }

  ghost function Commit(l: Ledger, tx: Transaction): Ledger {
    var r := Process(l, tx);
    if r.Ok? then r.ledger else l
  }

  ghost function Run(l: Ledger, txs: seq<Transaction>): Ledger {
    if txs == [] then l else Commit(Run(l, txs[..|txs| - 1]), txs[|txs| - 1])
  }

  // ------------------------------------------------------------------ totals

  function Held(a: TokenAccount, mint: Pubkey): nat {
    if a.mint == mint then a.amount else 0
  }

  function Holdings(tokens: map<Pubkey, TokenAccount>, mint: Pubkey): map<Pubkey, int> {
    map k | k in tokens :: Held(tokens[k], mint)
  }

  /** The number of tokens of a mint held over all accounts. */
  ghost function Total(tokens: map<Pubkey, TokenAccount>, mint: Pubkey): int {
    Sum(Holdings(tokens, mint))
  }
}
