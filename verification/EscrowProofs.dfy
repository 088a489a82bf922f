/** What the escrow program promises over every run: deposits stay locked and funded, tokens are
    conserved, each escrow is settled at most once, and a live escrow can always be cancelled. */
module EscrowProofs {
  import opened Common
  import opened MapSum
  import opened Escrow

  // ------------------------------------------------------------------ totals

  /** Replacing or adding one account moves the total by exactly what its holding moved. */
  lemma TotalUpdate(tokens: map<Pubkey, TokenAccount>, k: Pubkey, a: TokenAccount, mint: Pubkey)
    ensures Total(tokens[k := a], mint) ==
            Total(tokens, mint) - (if k in tokens then Held(tokens[k], mint) else 0) + Held(a, mint)
  {
    SumUpdate(Holdings(tokens, mint), k, Held(a, mint));
    assert Holdings(tokens[k := a], mint) == Holdings(tokens, mint)[k := Held(a, mint)];
  }

  lemma TotalRemove(tokens: map<Pubkey, TokenAccount>, k: Pubkey, mint: Pubkey)
    requires k in tokens
    ensures Total(tokens - {k}, mint) == Total(tokens, mint) - Held(tokens[k], mint)
  {
    SumSplit(Holdings(tokens, mint), k);
    assert Holdings(tokens - {k}, mint) == Holdings(tokens, mint) - {k};
  }

  lemma PairBelowTotal(tokens: map<Pubkey, TokenAccount>, j: Pubkey, k: Pubkey)
    requires j in tokens && k in tokens && j != k && tokens[j].mint == tokens[k].mint
    ensures tokens[j].amount + tokens[k].amount <= Total(tokens, tokens[j].mint)
  {
    TwoBelowSum(Holdings(tokens, tokens[j].mint), j, k);
  }

  // ------------------------------------------------------------------ conservation

  lemma TransferConserves(l: Ledger, signers: set<Pubkey>, source: Pubkey, target: Pubkey, authority: Pubkey,
                          amount: U64, mint: Pubkey)
    requires Transfer(l, signers, source, target, authority, amount).Ok?
    ensures Total(Transfer(l, signers, source, target, authority, amount).ledger.tokens, mint) == Total(l.tokens, mint)
  {
    if source != target {
      var debit := l.tokens[source].(amount := l.tokens[source].amount - amount);
      TotalUpdate(l.tokens, source, debit, mint);
      var debited := l.tokens[source := debit];
      TotalUpdate(debited, target, debited[target].(amount := debited[target].amount + amount), mint);
    }
  }

  lemma SetAuthorityConserves(l: Ledger, signers: set<Pubkey>, account: Pubkey, authority: Pubkey, newOwner: Pubkey,
                              mint: Pubkey)
    requires SetAuthority(l, signers, account, authority, newOwner).Ok?
    ensures Total(SetAuthority(l, signers, account, authority, newOwner).ledger.tokens, mint) == Total(l.tokens, mint)
  {
    TotalUpdate(l.tokens, account, l.tokens[account].(owner := newOwner), mint);
  }

  /** What a successful transaction mints into, less what it burns from, a mint. */
  ghost function Issued(l: Ledger, tx: Transaction, mint: Pubkey): int {
    if Process(l, tx).Err? then 0
    else match tx.ix
      case TokenMint(account, amount) => if l.tokens[account].mint == mint then amount else 0
      case TokenBurn(account, _, amount) => if l.tokens[account].mint == mint then 0 - (amount as int) else 0
      case _ => 0
  }

  lemma ExchangeConserves(l: Ledger, tx: Transaction, mint: Pubkey)
    requires tx.ix.Exchange? && SettleExchange(l, tx).Ok?
    ensures Total(SettleExchange(l, tx).ledger.tokens, mint) == Total(l.tokens, mint)
  {
    var ix := tx.ix;
    var record := l.escrows[ix.escrow];
    var signers := tx.signers + {l.pda};
    var l1 := Transfer(l, signers, ix.pdaDeposit, ix.takerReceive, ix.pdaAccount, record.initializerAmount).ledger;
    var l2 := Transfer(l1, tx.signers, ix.takerDeposit, ix.initializerReceive, ix.taker, record.takerAmount).ledger;
    TransferConserves(l, signers, ix.pdaDeposit, ix.takerReceive, ix.pdaAccount, record.initializerAmount, mint);
    TransferConserves(l1, tx.signers, ix.takerDeposit, ix.initializerReceive, ix.taker, record.takerAmount, mint);
    SetAuthorityConserves(l2, signers, ix.pdaDeposit, ix.pdaAccount, record.initializerKey, mint);
  }

  lemma StepConserves(l: Ledger, tx: Transaction, mint: Pubkey)
    ensures Total(Commit(l, tx).tokens, mint) == Total(l.tokens, mint) + Issued(l, tx, mint)
  {
    var r := Process(l, tx);
    if r.Ok? {
      match tx.ix {
        case InitializeEscrow(initializer, deposit, _, escrow, _, _) =>
          TotalUpdate(l.tokens, deposit, l.tokens[deposit].(owner := l.pda), mint);
        case CancelEscrow(_, deposit, authority, escrow) =>
          SetAuthorityConserves(l, tx.signers + {l.pda}, deposit, authority, l.escrows[escrow].initializerKey, mint);
        case Exchange(_, _, _, _, _, _, _, _) => ExchangeConserves(l, tx, mint);
        case TokenTransfer(source, target, authority, amount) =>
          TransferConserves(l, tx.signers, source, target, authority, amount, mint);
        case TokenSetOwner(account, authority, newOwner) =>
          SetAuthorityConserves(l, tx.signers, account, authority, newOwner, mint);
        case TokenOpen(account, m, owner) => TotalUpdate(l.tokens, account, TokenAccount(m, owner, 0), mint);
        case TokenClose(account, _) => TotalRemove(l.tokens, account, mint);
        case TokenMint(account, amount) =>
          TotalUpdate(l.tokens, account, l.tokens[account].(amount := l.tokens[account].amount + amount), mint);
        case TokenBurn(account, _, amount) =>
          TotalUpdate(l.tokens, account, l.tokens[account].(amount := l.tokens[account].amount - amount), mint);
      }
    }
  }

  ghost function IssuedOver(l: Ledger, txs: seq<Transaction>, mint: Pubkey): int {
    if txs == [] then 0
    else
      var prefix := txs[..|txs| - 1];
      IssuedOver(l, prefix, mint) + Issued(Run(l, prefix), txs[|txs| - 1], mint)
  }

  /** Over every run, whatever accounts alias, the tokens of a mint change only by minting and burning. */
  lemma {:induction false} RunConserves(l: Ledger, txs: seq<Transaction>, mint: Pubkey)
    ensures Total(Run(l, txs).tokens, mint) == Total(l.tokens, mint) + IssuedOver(l, txs, mint)
  {
    if txs != [] {
      var prefix := txs[..|txs| - 1];
      RunConserves(l, prefix, mint);
      StepConserves(Run(l, prefix), txs[|txs| - 1], mint);
    }
  }

  // ------------------------------------------------------------------ safety

  /** A live escrow's deposit is owned by the program and still covers what was promised. */
  predicate Locked(l: Ledger, escrow: Pubkey)
    requires escrow in l.escrows
  {
    var record := l.escrows[escrow];
    && record.initializerDeposit in l.tokens
    && l.tokens[record.initializerDeposit].owner == l.pda
    && l.tokens[record.initializerDeposit].amount >= record.initializerAmount
  }

  ghost predicate Safe(l: Ledger) {
    && (forall e :: e in l.escrows ==> Locked(l, e))
    && (forall e, f :: e in l.escrows && f in l.escrows && e != f ==>
          l.escrows[e].initializerDeposit != l.escrows[f].initializerDeposit)
    && (forall e :: e in l.escrows ==> e != l.escrows[e].initializerKey && e !in l.tokens && e != l.pda
                                       && l.escrows[e].initializerKey != l.pda)
  }

  ghost predicate SupplyBounded(l: Ledger) {
    forall mint :: Total(l.tokens, mint) < U64_LIMIT
  }

  /** No live escrow deposits into the account. */
  ghost predicate Free(l: Ledger, account: Pubkey) {
    forall e :: e in l.escrows ==> l.escrows[e].initializerDeposit != account
  }

  lemma FreeTransferKeepsSafe(l: Ledger, signers: set<Pubkey>, source: Pubkey, target: Pubkey, authority: Pubkey,
                              amount: U64)
    requires Safe(l) && Free(l, source)
    requires Transfer(l, signers, source, target, authority, amount).Ok?
    ensures Safe(Transfer(l, signers, source, target, authority, amount).ledger)
  {
    var after := Transfer(l, signers, source, target, authority, amount).ledger;
    assert after.tokens.Keys == l.tokens.Keys;
    forall e | e in after.escrows ensures Locked(after, e) {
      assert Locked(l, e);
    }
  }

  lemma FreeSetAuthorityKeepsSafe(l: Ledger, signers: set<Pubkey>, account: Pubkey, authority: Pubkey, newOwner: Pubkey)
    requires Safe(l) && Free(l, account)
    requires SetAuthority(l, signers, account, authority, newOwner).Ok?
    ensures Safe(SetAuthority(l, signers, account, authority, newOwner).ledger)
  {
    var after := SetAuthority(l, signers, account, authority, newOwner).ledger;
    assert after.tokens.Keys == l.tokens.Keys;
    forall e | e in after.escrows ensures Locked(after, e) {
      assert Locked(l, e);
    }
  }

  /** An account whose owner is not the program backs no live escrow. */
  lemma ForeignIsFree(l: Ledger, account: Pubkey)
    requires Safe(l) && account in l.tokens && l.tokens[account].owner != l.pda
    ensures Free(l, account)
  {
    forall e | e in l.escrows ensures l.escrows[e].initializerDeposit != account {
      assert Locked(l, e);
    }
  }

  lemma CloseKeepsSafe(l: Ledger, escrow: Pubkey)
    requires Safe(l) && escrow in l.escrows
    ensures Safe(Close(l, escrow)) && Free(Close(l, escrow), l.escrows[escrow].initializerDeposit)
  {
    var after := Close(l, escrow);
    forall e | e in after.escrows ensures Locked(after, e) {
      assert Locked(l, e);
    }
  }

  /** Closing a record first does not change what a transfer does. */
  lemma TransferAfterClose(l: Ledger, escrow: Pubkey, signers: set<Pubkey>, source: Pubkey, target: Pubkey,
                           authority: Pubkey, amount: U64)
    requires Transfer(l, signers, source, target, authority, amount).Ok?
    ensures Transfer(Close(l, escrow), signers, source, target, authority, amount)
         == Ok(Close(Transfer(l, signers, source, target, authority, amount).ledger, escrow))
  {
  }

  lemma SetAuthorityAfterClose(l: Ledger, escrow: Pubkey, signers: set<Pubkey>, account: Pubkey, authority: Pubkey,
                               newOwner: Pubkey)
    requires SetAuthority(l, signers, account, authority, newOwner).Ok?
    ensures SetAuthority(Close(l, escrow), signers, account, authority, newOwner)
         == Ok(Close(SetAuthority(l, signers, account, authority, newOwner).ledger, escrow))
  {
  }

  lemma ExchangeKeepsSafe(l: Ledger, tx: Transaction)
    requires tx.ix.Exchange? && l.pda !in tx.signers && Safe(l) && SettleExchange(l, tx).Ok?
    ensures Safe(SettleExchange(l, tx).ledger)
  {
    var ix := tx.ix;
    var record := l.escrows[ix.escrow];
    var all := tx.signers + {l.pda};
    var l1 := Transfer(l, all, ix.pdaDeposit, ix.takerReceive, ix.pdaAccount, record.initializerAmount).ledger;
    var l2 := Transfer(l1, tx.signers, ix.takerDeposit, ix.initializerReceive, ix.taker, record.takerAmount).ledger;
    // the record may as well be closed first: then its deposit backs nothing any more
    TransferAfterClose(l, ix.escrow, all, ix.pdaDeposit, ix.takerReceive, ix.pdaAccount, record.initializerAmount);
    TransferAfterClose(l1, ix.escrow, tx.signers, ix.takerDeposit, ix.initializerReceive, ix.taker, record.takerAmount);
    SetAuthorityAfterClose(l2, ix.escrow, all, ix.pdaDeposit, ix.pdaAccount, record.initializerKey);
    CloseKeepsSafe(l, ix.escrow);
    SettlingKeepsSafe(Close(l, ix.escrow), ix, tx.signers, record, Ok(Close(l1, ix.escrow)), Ok(Close(l2, ix.escrow)),
                      SettleExchange(l, tx));
  }

  /** Two transfers and a hand-over are safe when the account the program hands over backs no escrow. */
  lemma SettlingKeepsSafe(l: Ledger, ix: Instruction, signers: set<Pubkey>, record: EscrowAccount,
                          r1: Result, r2: Result, r3: Result)
    requires ix.Exchange? && l.pda !in signers && Safe(l) && Free(l, ix.pdaDeposit)
    requires var all := signers + {l.pda};
             && r1 == Transfer(l, all, ix.pdaDeposit, ix.takerReceive, ix.pdaAccount, record.initializerAmount)
             && r1.Ok?
             && r2 == Transfer(r1.ledger, signers, ix.takerDeposit, ix.initializerReceive, ix.taker, record.takerAmount)
             && r2.Ok? && r3.Ok?
             && r3 == SetAuthority(r2.ledger, all, ix.pdaDeposit, ix.pdaAccount, record.initializerKey)
    ensures Safe(r3.ledger)
  {
    var all := signers + {l.pda};
    FreeTransferKeepsSafe(l, all, ix.pdaDeposit, ix.takerReceive, ix.pdaAccount, record.initializerAmount);
    ForeignIsFree(r1.ledger, ix.takerDeposit);
    FreeTransferKeepsSafe(r1.ledger, signers, ix.takerDeposit, ix.initializerReceive, ix.taker, record.takerAmount);
    FreeSetAuthorityKeepsSafe(r2.ledger, all, ix.pdaDeposit, ix.pdaAccount, record.initializerKey);
  }

  lemma InitializeKeepsSafe(l: Ledger, tx: Transaction)
    requires tx.ix.InitializeEscrow? && l.pda !in tx.signers && Safe(l) && Initialize(l, tx).Ok?
    ensures Safe(Initialize(l, tx).ledger)
  {
    var after := Initialize(l, tx).ledger;
    ForeignIsFree(l, tx.ix.initializerDeposit);
    assert after.tokens.Keys == l.tokens.Keys;
    forall e | e in after.escrows ensures Locked(after, e) {
      if e != tx.ix.escrow { assert Locked(l, e); }
    }
  }

  lemma CancelKeepsSafe(l: Ledger, tx: Transaction)
    requires tx.ix.CancelEscrow? && Safe(l) && Cancel(l, tx).Ok?
    ensures Safe(Cancel(l, tx).ledger)
  {
    var record := l.escrows[tx.ix.escrow];
    CloseKeepsSafe(l, tx.ix.escrow);
    FreeSetAuthorityKeepsSafe(Close(l, tx.ix.escrow), tx.signers + {l.pda}, tx.ix.pdaDeposit, tx.ix.pdaAccount,
                              record.initializerKey);
  }

  lemma TokenStepKeepsSafe(l: Ledger, tx: Transaction)
    requires !tx.ix.InitializeEscrow? && !tx.ix.CancelEscrow? && !tx.ix.Exchange?
    requires l.pda !in tx.signers && Safe(l) && TokenStep(l, tx).Ok?
    ensures Safe(TokenStep(l, tx).ledger)
  {
    match tx.ix {
      case TokenTransfer(source, target, authority, amount) =>
        ForeignIsFree(l, source);
        FreeTransferKeepsSafe(l, tx.signers, source, target, authority, amount);
      case TokenSetOwner(account, authority, newOwner) =>
        ForeignIsFree(l, account);
        FreeSetAuthorityKeepsSafe(l, tx.signers, account, authority, newOwner);
      case TokenOpen(account, _, _) => OtherAccountKeepsSafe(l, TokenStep(l, tx).ledger, account);
      case TokenClose(account, _) =>
        ForeignIsFree(l, account);
        OtherAccountKeepsSafe(l, TokenStep(l, tx).ledger, account);
      case TokenMint(account, amount) =>
        forall e | e in l.escrows ensures Locked(TokenStep(l, tx).ledger, e) { assert Locked(l, e); }
      case TokenBurn(account, _, _) =>
        ForeignIsFree(l, account);
        OtherAccountKeepsSafe(l, TokenStep(l, tx).ledger, account);
    }
  }

  /** Whatever happens to one account that backs no escrow leaves the escrows safe. */
  lemma OtherAccountKeepsSafe(l: Ledger, after: Ledger, account: Pubkey)
    requires Safe(l) && Free(l, account) && account !in l.escrows
    requires after.pda == l.pda && after.escrows == l.escrows
    requires after.tokens - {account} == l.tokens - {account}
    ensures Safe(after)
  {
    forall k | k != account ensures k in l.tokens <==> k in after.tokens {
      assert k in l.tokens <==> k in l.tokens - {account};
      assert k in after.tokens <==> k in after.tokens - {account};
    }
    forall k | k != account && k in l.tokens ensures after.tokens[k] == l.tokens[k] {
      assert (after.tokens - {account})[k] == (l.tokens - {account})[k];
    }
    forall e | e in after.escrows ensures Locked(after, e) { assert Locked(l, e); }
  }

  lemma StepKeepsSafe(l: Ledger, tx: Transaction)
    requires Safe(l)
    ensures Safe(Commit(l, tx))
  {
    if Process(l, tx).Ok? {
      match tx.ix {
        case InitializeEscrow(_, _, _, _, _, _) => InitializeKeepsSafe(l, tx);
        case CancelEscrow(_, _, _, _) => CancelKeepsSafe(l, tx);
        case Exchange(_, _, _, _, _, _, _, _) => ExchangeKeepsSafe(l, tx);
        case _ => TokenStepKeepsSafe(l, tx);
      }
    }
  }

  lemma StepKeepsSupply(l: Ledger, tx: Transaction)
    requires SupplyBounded(l)
    ensures SupplyBounded(Commit(l, tx))
  {
    forall mint ensures Total(Commit(l, tx).tokens, mint) < U64_LIMIT {
      StepConserves(l, tx, mint);
    }
  }

  /** A ledger before any escrow exists: every later state of the system is reached from one. */
  ghost predicate Initial(l: Ledger) {
    l.escrows == map[] && SupplyBounded(l)
  }

  /** In every reachable state each live escrow's deposit is the program's, is funded, and is no
      other live escrow's deposit. */
  lemma {:induction false} EscrowsStaySafe(l: Ledger, txs: seq<Transaction>)
    requires Initial(l)
    ensures Safe(Run(l, txs)) && SupplyBounded(Run(l, txs))
  {
    if txs != [] {
      var prefix := txs[..|txs| - 1];
      EscrowsStaySafe(l, prefix);
      StepKeepsSafe(Run(l, prefix), txs[|txs| - 1]);
      StepKeepsSupply(Run(l, prefix), txs[|txs| - 1]);
    }
  }
}
