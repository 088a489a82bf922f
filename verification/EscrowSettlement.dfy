/** How an escrow starts and ends: exactly when each instruction succeeds in a reachable state,
    what it moves, and how often it can happen. */
module EscrowSettlement {
  import opened Common
  import opened Escrow
  import opened EscrowProofs

  // ------------------------------------------------------------------ at most once

  ghost predicate Starts(l: Ledger, tx: Transaction, escrow: Pubkey) {
    tx.ix.InitializeEscrow? && tx.ix.escrow == escrow && Process(l, tx).Ok?
  }

  ghost predicate Settles(l: Ledger, tx: Transaction, escrow: Pubkey) {
    (tx.ix.CancelEscrow? || tx.ix.Exchange?) && tx.ix.escrow == escrow && Process(l, tx).Ok?
  }

  /** A record appears only by initialization, disappears only by settlement, and never changes
      in between. */
  lemma RecordLifetime(l: Ledger, tx: Transaction, escrow: Pubkey)
    ensures var after := Commit(l, tx);
            && (escrow !in l.escrows && escrow in after.escrows <==> Starts(l, tx, escrow))
            && (escrow in l.escrows && escrow !in after.escrows <==> Settles(l, tx, escrow))
            && (escrow in l.escrows && escrow in after.escrows ==> after.escrows[escrow] == l.escrows[escrow])
  {
  }

  ghost function StartCount(l: Ledger, txs: seq<Transaction>, escrow: Pubkey): nat {
    if txs == [] then 0
    else
      var prefix := txs[..|txs| - 1];
      StartCount(l, prefix, escrow) + if Starts(Run(l, prefix), txs[|txs| - 1], escrow) then 1 else 0
  }

  ghost function SettleCount(l: Ledger, txs: seq<Transaction>, escrow: Pubkey): nat {
    if txs == [] then 0
    else
      var prefix := txs[..|txs| - 1];
      SettleCount(l, prefix, escrow) + if Settles(Run(l, prefix), txs[|txs| - 1], escrow) then 1 else 0
  }

  /** Each initialization is settled at most once: over every run the two counts agree, except
      that a live escrow has one initialization still to settle. */
  lemma {:induction false} SettledAtMostOnce(l: Ledger, txs: seq<Transaction>, escrow: Pubkey)
    requires Initial(l)
    ensures StartCount(l, txs, escrow)
         == SettleCount(l, txs, escrow) + if escrow in Run(l, txs).escrows then 1 else 0
  {
    if txs != [] {
      var prefix := txs[..|txs| - 1];
      SettledAtMostOnce(l, prefix, escrow);
      RecordLifetime(Run(l, prefix), txs[|txs| - 1], escrow);
    }
  }

  // ------------------------------------------------------------------ initialize

  predicate MayInitialize(l: Ledger, tx: Transaction)
    requires tx.ix.InitializeEscrow?
  {
    var ix := tx.ix;
    && l.pda !in tx.signers
    && {ix.initializer, ix.escrow} <= tx.signers
    && {ix.initializer, ix.escrow, ix.initializerDeposit} <= tx.writable
    && ix.initializer != ix.escrow && ix.escrow != l.pda && ix.escrow !in l.tokens && ix.escrow !in l.escrows
    && ix.initializerDeposit in l.tokens && ix.initializerReceive in l.tokens
    && l.tokens[ix.initializerDeposit].owner == ix.initializer
    && l.tokens[ix.initializerDeposit].amount >= ix.initializerAmount
  }

  /** Initializing records the offer and hands the deposit to the program, moving no tokens. */
  lemma InitializeLocksDeposit(l: Ledger, tx: Transaction)
    requires tx.ix.InitializeEscrow?
    ensures Process(l, tx).Ok? <==> MayInitialize(l, tx)
    ensures Process(l, tx).Ok? ==>
              var ix := tx.ix; var after := Process(l, tx).ledger;
              && after.escrows.Keys == l.escrows.Keys + {ix.escrow}
              && after.escrows[ix.escrow].initializerKey == ix.initializer
              && after.escrows[ix.escrow].initializerDeposit == ix.initializerDeposit
              && after.escrows[ix.escrow].initializerReceive == ix.initializerReceive
              && after.escrows[ix.escrow].initializerAmount == ix.initializerAmount
              && after.escrows[ix.escrow].takerAmount == ix.takerAmount
              && Locked(after, ix.escrow)
              && after.tokens.Keys == l.tokens.Keys
              && forall k :: k in l.tokens ==>
                   && after.tokens[k].amount == l.tokens[k].amount && after.tokens[k].mint == l.tokens[k].mint
                   && (k != ix.initializerDeposit ==> after.tokens[k].owner == l.tokens[k].owner)
  {
  }

  // ------------------------------------------------------------------ cancel

  predicate NamesRecordedAccounts(l: Ledger, tx: Transaction)
    requires tx.ix.CancelEscrow?
  {
    var ix := tx.ix;
    && ix.escrow in l.escrows
    && ix.initializer == l.escrows[ix.escrow].initializerKey
    && ix.pdaDeposit == l.escrows[ix.escrow].initializerDeposit
    && ix.pdaAccount == l.pda
  }

  /** In every reachable state a live escrow can be cancelled exactly by naming its recorded
      accounts as writable, with nobody's signature, and the deposit goes back to the initializer untouched. */
  lemma CancelReturnsDeposit(start: Ledger, txs: seq<Transaction>, tx: Transaction)
    requires Initial(start) && tx.ix.CancelEscrow? && Run(start, txs).pda !in tx.signers
    ensures var l := Run(start, txs); var ix := tx.ix;
            && (Process(l, tx).Ok? <==>
                  NamesRecordedAccounts(l, tx) && {ix.initializer, ix.pdaDeposit, ix.escrow} <= tx.writable)
            && (Process(l, tx).Ok? ==>
                  var after := Process(l, tx).ledger; var deposit := ix.pdaDeposit;
                  && after.escrows.Keys == l.escrows.Keys - {ix.escrow}
                  && after.tokens.Keys == l.tokens.Keys
                  && after.tokens[deposit].owner == l.escrows[ix.escrow].initializerKey
                  && after.tokens[deposit].amount == l.tokens[deposit].amount >= l.escrows[ix.escrow].initializerAmount
                  && after.tokens[deposit].mint == l.tokens[deposit].mint
                  && forall k :: k in l.tokens && k != deposit ==> after.tokens[k] == l.tokens[k])
  {
    EscrowsStaySafe(start, txs);
    var l := Run(start, txs);
    if tx.ix.escrow in l.escrows { assert Locked(l, tx.ix.escrow); }
  }

  // ------------------------------------------------------------------ exchange

  predicate MayExchange(l: Ledger, tx: Transaction)
    requires tx.ix.Exchange?
  {
    var ix := tx.ix;
    && ExchangeAccountsExist(l, ix)
    && {ix.takerDeposit, ix.takerReceive, ix.pdaDeposit} <= tx.writable
    && {ix.initializerReceive, ix.initializerMain, ix.escrow} <= tx.writable
    && ix.taker in tx.signers
    && var record := l.escrows[ix.escrow];
       && ix.pdaDeposit == record.initializerDeposit
       && ix.initializerReceive == record.initializerReceive
       && ix.initializerMain == record.initializerKey
       && ix.pdaAccount == l.pda
       && l.tokens[ix.takerDeposit].owner == ix.taker
       && l.tokens[ix.takerDeposit].amount >= record.takerAmount
       && l.tokens[ix.takerReceive].mint == l.tokens[ix.pdaDeposit].mint
       && l.tokens[ix.initializerReceive].mint == l.tokens[ix.takerDeposit].mint
  }

  /** The net movement an exchange promises for one account; an account playing two roles nets both. */
  function ExchangeDelta(ix: Instruction, record: EscrowAccount, account: Pubkey): int
    requires ix.Exchange?
  {
    (if account == ix.takerReceive then record.initializerAmount as int else 0)
    - (if account == ix.pdaDeposit then record.initializerAmount as int else 0)
    + (if account == ix.initializerReceive then record.takerAmount as int else 0)
    - (if account == ix.takerDeposit then record.takerAmount as int else 0)
  }

  /** In any ledger, aliased or not: exactly when a transfer succeeds, and what it moves. */
  lemma TransferExactly(l: Ledger, signers: set<Pubkey>, source: Pubkey, target: Pubkey, authority: Pubkey, amount: U64)
    ensures var r := Transfer(l, signers, source, target, authority, amount);
            && (r.Ok? <==> && source in l.tokens && target in l.tokens && l.tokens[source].amount >= amount
                           && l.tokens[source].mint == l.tokens[target].mint
                           && l.tokens[source].owner == authority && authority in signers
                           && (source != target ==> l.tokens[target].amount + amount < U64_LIMIT))
            && (r.Ok? ==> && r.ledger.(tokens := l.tokens) == l && r.ledger.tokens.Keys == l.tokens.Keys
                          && forall k :: k in l.tokens ==>
                               && r.ledger.tokens[k].owner == l.tokens[k].owner
                               && r.ledger.tokens[k].mint == l.tokens[k].mint
                               && r.ledger.tokens[k].amount as int == l.tokens[k].amount as int
                                    + (if k == target then amount as int else 0)
                                    - (if k == source then amount as int else 0))
  {
  }

  /** While supplies fit 64 bits no transfer overflows. */
  lemma TransferFits(l: Ledger, source: Pubkey, target: Pubkey, amount: U64)
    requires SupplyBounded(l)
    ensures (source in l.tokens && target in l.tokens && source != target && l.tokens[source].amount >= amount
             && l.tokens[source].mint == l.tokens[target].mint)
            ==> l.tokens[target].amount + amount < U64_LIMIT
  {
    if source in l.tokens && target in l.tokens && source != target && l.tokens[source].mint == l.tokens[target].mint {
      PairBelowTotal(l.tokens, source, target);
    }
  }

  /** So while supplies fit, the token program's own checks alone decide. */
  lemma TransferDeltas(l: Ledger, signers: set<Pubkey>, source: Pubkey, target: Pubkey, authority: Pubkey, amount: U64)
    requires SupplyBounded(l)
    ensures var r := Transfer(l, signers, source, target, authority, amount);
            && (r.Ok? <==> && source in l.tokens && target in l.tokens && l.tokens[source].amount >= amount
                           && l.tokens[source].mint == l.tokens[target].mint
                           && l.tokens[source].owner == authority && authority in signers)
            && (r.Ok? ==> && r.ledger.(tokens := l.tokens) == l && r.ledger.tokens.Keys == l.tokens.Keys
                          && forall k :: k in l.tokens ==>
                               && r.ledger.tokens[k].owner == l.tokens[k].owner
                               && r.ledger.tokens[k].mint == l.tokens[k].mint
                               && r.ledger.tokens[k].amount as int == l.tokens[k].amount as int
                                    + (if k == target then amount as int else 0)
                                    - (if k == source then amount as int else 0))
  {
    TransferExactly(l, signers, source, target, authority, amount);
    TransferFits(l, source, target, amount);
  }

  lemma TransferKeepsSupply(l: Ledger, signers: set<Pubkey>, source: Pubkey, target: Pubkey, authority: Pubkey,
                            amount: U64)
    requires SupplyBounded(l) && Transfer(l, signers, source, target, authority, amount).Ok?
    ensures SupplyBounded(Transfer(l, signers, source, target, authority, amount).ledger)
  {
    forall mint ensures Total(Transfer(l, signers, source, target, authority, amount).ledger.tokens, mint) < U64_LIMIT {
      TransferConserves(l, signers, source, target, authority, amount, mint);
    }
  }

  /** In every reachable state an exchange succeeds exactly when MayExchange holds, whichever
      accounts coincide, and then swaps the two promised amounts and returns the deposit account. */
  lemma ExchangeSwaps(start: Ledger, txs: seq<Transaction>, tx: Transaction)
    requires Initial(start) && tx.ix.Exchange? && Run(start, txs).pda !in tx.signers
    ensures var l := Run(start, txs); var ix := tx.ix;
            && (Process(l, tx).Ok? <==> MayExchange(l, tx))
            && (Process(l, tx).Ok? ==>
                  var after := Process(l, tx).ledger; var record := l.escrows[ix.escrow];
                  && after.escrows.Keys == l.escrows.Keys - {ix.escrow}
                  && after.tokens.Keys == l.tokens.Keys
                  && forall k :: k in l.tokens ==>
                       && after.tokens[k].amount as int == l.tokens[k].amount as int + ExchangeDelta(ix, record, k)
                       && after.tokens[k].mint == l.tokens[k].mint
                       && after.tokens[k].owner == (if k == ix.pdaDeposit then record.initializerKey
                                                    else l.tokens[k].owner))
  {
    EscrowsStaySafe(start, txs);
    ExchangeInSafeLedger(Run(start, txs), tx);
  }

  lemma ExchangeInSafeLedger(l: Ledger, tx: Transaction)
    requires Safe(l) && SupplyBounded(l) && tx.ix.Exchange? && l.pda !in tx.signers
    ensures Process(l, tx).Ok? <==> MayExchange(l, tx)
    ensures Process(l, tx).Ok? ==>
              var ix := tx.ix; var after := Process(l, tx).ledger; var record := l.escrows[ix.escrow];
              && after.escrows.Keys == l.escrows.Keys - {ix.escrow}
              && after.tokens.Keys == l.tokens.Keys
              && forall k :: k in l.tokens ==>
                   && after.tokens[k].amount as int == l.tokens[k].amount as int + ExchangeDelta(ix, record, k)
                   && after.tokens[k].mint == l.tokens[k].mint
                   && after.tokens[k].owner == if k == ix.pdaDeposit then record.initializerKey else l.tokens[k].owner
  {
    var ix := tx.ix;
    if ExchangeAccountsExist(l, ix) {
      var record := l.escrows[ix.escrow];
      assert Locked(l, ix.escrow);
      var signers := tx.signers + {l.pda};
      TransferDeltas(l, signers, ix.pdaDeposit, ix.takerReceive, ix.pdaAccount, record.initializerAmount);
      var r1 := Transfer(l, signers, ix.pdaDeposit, ix.takerReceive, ix.pdaAccount, record.initializerAmount);
      if r1.Ok? {
        TransferKeepsSupply(l, signers, ix.pdaDeposit, ix.takerReceive, ix.pdaAccount, record.initializerAmount);
        TransferDeltas(r1.ledger, tx.signers, ix.takerDeposit, ix.initializerReceive, ix.taker, record.takerAmount);
      }
    }
  }
}
