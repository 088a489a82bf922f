/** The escrow program as it runs: handlers that assign the record's fields and move tokens call by
    call, and a runtime that undoes everything a failed transaction did. */
module EscrowProgram {
  import opened Common
  import opened Escrow

  datatype Status = Success | Failure(error: Error)

  /** How a handler that may stop half-way relates to its specification: the status always agrees,
      and on success so does the state. */
  ghost predicate Agrees(status: Status, after: Ledger, spec: Result) {
    match spec
    case Ok(ledger) => status == Success && after == ledger
    case Err(error) => status == Failure(error)
  }

  class Runtime {
    const pda: Pubkey
    var tokens: map<Pubkey, TokenAccount>
    var escrows: map<Pubkey, EscrowAccount>

    constructor (pda: Pubkey, tokens: map<Pubkey, TokenAccount>)
      ensures View() == Ledger(pda, tokens, map[])
    {
      this.pda := pda;
      this.tokens := tokens;
      this.escrows := map[];
    }

    ghost function View(): Ledger
      reads this
    {
      Ledger(pda, tokens, escrows)
    }

    method InvokeSetAuthority(signers: set<Pubkey>, account: Pubkey, authority: Pubkey, newOwner: Pubkey)
      returns (status: Status)
      modifies this
      ensures Agrees(status, View(), SetAuthority(old(View()), signers, account, authority, newOwner))
    {
      if account !in tokens { return Failure(AccountNotInitialized); }
      if tokens[account].owner != authority || authority !in signers { return Failure(OwnerMismatch); }
      tokens := tokens[account := tokens[account].(owner := newOwner)];
      status := Success;
    }

    method InvokeTransfer(signers: set<Pubkey>, source: Pubkey, target: Pubkey, authority: Pubkey, amount: U64)
      returns (status: Status)
      modifies this
      ensures Agrees(status, View(), Transfer(old(View()), signers, source, target, authority, amount))
    {
      if source !in tokens || target !in tokens { return Failure(AccountNotInitialized); }
      if tokens[source].amount < amount { return Failure(InsufficientFunds); }
      if tokens[source].mint != tokens[target].mint { return Failure(MintMismatch); }
      if tokens[source].owner != authority || authority !in signers { return Failure(OwnerMismatch); }
      if source != target {
        if tokens[target].amount + amount >= U64_LIMIT { return Failure(Overflow); }
        tokens := tokens[source := tokens[source].(amount := tokens[source].amount - amount)];
        tokens := tokens[target := tokens[target].(amount := tokens[target].amount + amount)];
      }
      status := Success;
    }

    method InitializeEscrow(tx: Transaction) returns (status: Status)
      requires tx.ix.InitializeEscrow?
      modifies this
      ensures Agrees(status, View(), Initialize(old(View()), tx))
    {
      var ix := tx.ix;
      if ix.initializer !in tx.signers { return Failure(ConstraintSigner); }
      if ix.initializerDeposit !in tokens || ix.initializerReceive !in tokens { return Failure(AccountNotInitialized); }
      if ix.initializer == ix.escrow { return Failure(TryingToInitPayerAsProgramAccount); }
      if ix.escrow in tokens || ix.escrow in escrows || ix.escrow == pda { return Failure(AccountInUse); }
      if ix.escrow !in tx.writable { return Failure(ConstraintMut); }
      if ix.escrow !in tx.signers { return Failure(ConstraintSigner); }
      if ix.initializer !in tx.writable || ix.initializerDeposit !in tx.writable { return Failure(ConstraintMut); }
      if tokens[ix.initializerDeposit].amount < ix.initializerAmount { return Failure(ConstraintRaw); }
      var record := EscrowAccount(0, 0, 0, 0, 0);  // a freshly created account reads as zeroes
      record := record.(initializerKey := ix.initializer);
      record := record.(initializerDeposit := ix.initializerDeposit);
      record := record.(initializerReceive := ix.initializerReceive);
      record := record.(initializerAmount := ix.initializerAmount);
      record := record.(takerAmount := ix.takerAmount);
      escrows := escrows[ix.escrow := record];
      status := InvokeSetAuthority(tx.signers, ix.initializerDeposit, ix.initializer, pda);
    }

    method CancelEscrow(tx: Transaction) returns (status: Status)
      requires tx.ix.CancelEscrow?
      modifies this
      ensures Agrees(status, View(), Cancel(old(View()), tx))
    {
      var ix := tx.ix;
      if ix.pdaDeposit !in tokens || ix.escrow !in escrows { return Failure(AccountNotInitialized); }
      if !({ix.initializer, ix.pdaDeposit, ix.escrow} <= tx.writable) { return Failure(ConstraintMut); }
      var record := escrows[ix.escrow];
      if record.initializerKey != ix.initializer { return Failure(ConstraintRaw); }
      if record.initializerDeposit != ix.pdaDeposit { return Failure(ConstraintRaw); }
      if ix.escrow == ix.initializer { return Failure(ConstraintClose); }
      status := InvokeSetAuthority(tx.signers + {pda}, ix.pdaDeposit, ix.pdaAccount, record.initializerKey);
      if status.Failure? { return; }
      escrows := escrows - {ix.escrow};
    }

    method Exchange(tx: Transaction) returns (status: Status)
      requires tx.ix.Exchange?
      modifies this
      ensures Agrees(status, View(), SettleExchange(old(View()), tx))
    {
      var ix := tx.ix;
      if ix.takerDeposit !in tokens || ix.takerReceive !in tokens || ix.pdaDeposit !in tokens
         || ix.initializerReceive !in tokens || ix.escrow !in escrows { return Failure(AccountNotInitialized); }
      if ix.taker !in tx.signers { return Failure(ConstraintSigner); }
      if !({ix.takerDeposit, ix.takerReceive, ix.pdaDeposit, ix.initializerReceive, ix.initializerMain, ix.escrow}
           <= tx.writable) { return Failure(ConstraintMut); }
      var record := escrows[ix.escrow];
      if tokens[ix.takerDeposit].amount < record.takerAmount { return Failure(ConstraintRaw); }
      if record.initializerDeposit != ix.pdaDeposit { return Failure(ConstraintRaw); }
      if record.initializerReceive != ix.initializerReceive { return Failure(ConstraintRaw); }
      if record.initializerKey != ix.initializerMain { return Failure(ConstraintRaw); }
      if ix.escrow == ix.initializerMain { return Failure(ConstraintClose); }
      status := InvokeTransfer(tx.signers + {pda}, ix.pdaDeposit, ix.takerReceive, ix.pdaAccount,
                               record.initializerAmount);
      if status.Failure? { return; }
      status := InvokeTransfer(tx.signers, ix.takerDeposit, ix.initializerReceive, ix.taker, record.takerAmount);
      if status.Failure? { return; }
      status := InvokeSetAuthority(tx.signers + {pda}, ix.pdaDeposit, ix.pdaAccount, record.initializerKey);
      if status.Failure? { return; }
      escrows := escrows - {ix.escrow};
    }

    /** Runs one of the program's transactions atomically. */
    method Execute(tx: Transaction) returns (status: Status)
      requires tx.ix.InitializeEscrow? || tx.ix.CancelEscrow? || tx.ix.Exchange?
      modifies this
      ensures Agrees(status, View(), Process(old(View()), tx))
      ensures View() == Commit(old(View()), tx)
    {
      if pda in tx.signers { return Failure(InvalidSignature); }
      var tokensBefore, escrowsBefore := tokens, escrows;
      match tx.ix {
        case InitializeEscrow(_, _, _, _, _, _) => status := InitializeEscrow(tx);
        case CancelEscrow(_, _, _, _) => status := CancelEscrow(tx);
        case Exchange(_, _, _, _, _, _, _, _) => status := Exchange(tx);
      }
      if status.Failure? {
        tokens, escrows := tokensBefore, escrowsBefore;
      }
    }
  }
}
