/** `WalletService`'s transactional operations as functions from the tables
    before the call to the tables after it (or to the exception the call
    throws, in which case the transaction leaves the tables as they were). */
module WalletLedger {
  import opened Wrappers
  import opened Jvm
  import opened Uuids
  import opened Entities
  import opened Tables

  /** The values one call draws from `UUID.randomUUID()` and from the clock:
      a wallet id, the id of the wallet event, the id of a reply event, and
      the current time (`LocalDateTime.now()` and `Instant.now()` read as one
      instant). */
  datatype Fresh = Fresh(walletId: Uuid, eventId: Uuid, replyId: Uuid, now: Time)

  /** The exceptions the service's operations throw. */
  datatype ServiceError =
    | DuplicateWallet(userId: string)
    | NotEnoughMoney(walletId: Uuid)
    | Database(cause: DbError)

  const WALLET_EVENT := "WalletEvent"
  const WALLET_CREATE_EVENT := "WalletCreateEvent"
  const WALLET_BALANCE_CHANGE_EVENT := "WalletBalanceChangeEvent"

  /** The constraints of the `wallet` table that the service relies on. */
  ghost predicate WalletTable(db: Db) {
    WalletsKeyed(db.wallets) && UniqueUserIds(db.wallets)
  }

  /** `after` is `before` with one more outbox row, of aggregate type
      "WalletEvent", for the given aggregate and event type, whose payload
      names the same wallet and carries `change` for user `userId`. */
  ghost predicate OutboxGrewByOne(before: seq<EventMessageOut>, after: seq<EventMessageOut>,
                                  aggregateId: string, kind: string, userId: string, change: WalletChange)
  {
    && |after| == |before| + 1
    && after[..|before|] == before
    && var row := after[|before|];
       && row.aggregateType == WALLET_EVENT && row.aggregateId == aggregateId && row.kind == kind
       && row.payload.walletId == aggregateId && row.payload.userId == userId && row.payload.change == change
  }

  // ----- createWallet

  /** `createWallet`: refuses a user who already owns a wallet; otherwise
      saves a wallet with balance 0, not blocked, and one "WalletCreateEvent"
      outbox row. */
  function CreateWallet(db: Db, userId: string, f: Fresh): (r: Result<(WalletEntity, Db), ServiceError>)
    requires WalletTable(db)
    ensures r.Failure? <==> HasUser(db.wallets, userId)
    ensures r.Failure? ==> r.error == DuplicateWallet(userId)
    ensures r.Success? ==>
              var w := r.value.0;
              var db' := r.value.1;
              && w == WalletEntity(Some(f.walletId), 0, userId, false, f.now)
              && db'.wallets == db.wallets[f.walletId := w]
              && FindByUserId(db'.wallets, userId) == Some(w)
              && db'.history == db.history && db'.payments == db.payments && db'.eventLog == db.eventLog
              && OutboxGrewByOne(db.outbox, db'.outbox, Uuids.ToString(f.walletId), WALLET_CREATE_EVENT,
                                 userId, WalletCreated(f.now, 0))
  {
    if FindByUserId(db.wallets, userId).Some? then Failure(DuplicateWallet(userId))
    else
      var w := WalletEntity(Some(f.walletId), 0, userId, false, f.now);
      match SaveWallet(db, w)
      case Failure(e) => Failure(Database(e))
      case Success(db1) =>
        var walletId := Uuids.ToString(f.walletId);
        var event := WalletCudEvent(Uuids.ToString(f.eventId), f.now, walletId, userId, WalletCreated(f.now, 0));
        FindByUserIdOfMember(db1.wallets, f.walletId);
        Success((w, SaveOutbox(db1, WALLET_EVENT, walletId, WALLET_CREATE_EVENT, event)))
  }

  // ----- decreaseWalletAmount

  /** The debit check: `walletAmount <= 0 || walletAmount - amount < 0`, the
      subtraction in 64-bit two's complement. */
  predicate InsufficientFunds(balance: Long, amount: Long) {
    balance <= 0 || WrapLong(balance - amount) < 0
  }

  /** The check rejects exactly the debits that would leave a positive balance
      negative: once it passes, the exact difference is a non-negative Long,
      so the SQL update cannot overflow and the balance stays non-negative. */
  lemma DebitCheckMeansNoOverdraft(balance: Long, amount: Long)
    ensures !InsufficientFunds(balance, amount) <==> balance > 0 && 0 <= balance - amount <= LONG_MAX
  {
    if balance > 0 {
      WrappedDifferenceNonNegative(balance, amount);
    }
  }

  /** The balance the debit check reads: `wallet?.amount ?: 0`. */
  function BalanceOrZero(wallets: map<Uuid, WalletEntity>, walletId: Uuid): Long {
    match FindById(wallets, walletId)
    case Some(w) => w.amount
    case None => 0
  }

  /** `decreaseWalletAmount`: the check, then the withdrawal update, one
      withdrawal history record and one "WalletBalanceChangeEvent" outbox row
      whose amount is the balance read BEFORE the debit; returns the wallet as
      re-read after the update. */
  function DecreaseWalletAmount(db: Db, walletId: Uuid, amount: Long, description: string, f: Fresh)
    : (r: Result<(Option<WalletEntity>, Db), ServiceError>)
    ensures r.Failure? <==> walletId !in db.wallets || InsufficientFunds(db.wallets[walletId].amount, amount)
    ensures r.Failure? ==> r.error == NotEnoughMoney(walletId)
    ensures r.Success? ==>
              var res := r.value.0;
              var db' := r.value.1;
              var old_ := db.wallets[walletId];
              && db'.wallets == db.wallets[walletId := old_.(amount := old_.amount - amount)]
              && db'.wallets[walletId].amount >= 0
              && res == Some(db'.wallets[walletId])
              && db'.history == db.history + [HistoryRecord(db.nextHistoryId, walletId, f.now, amount, description, Withdrawal)]
              && OutboxGrewByOne(db.outbox, db'.outbox, Uuids.ToString(walletId), WALLET_BALANCE_CHANGE_EVENT,
                                 "", WalletBalanceChange(old_.amount, Withdrawal))
              && db'.payments == db.payments && db'.eventLog == db.eventLog
  {
    var walletAmount := BalanceOrZero(db.wallets, walletId);
    if InsufficientFunds(walletAmount, amount) then Failure(NotEnoughMoney(walletId))
    else
      DebitCheckMeansNoOverdraft(walletAmount, amount);
      match UpdateAmountWithdrawal(db, walletId, amount)
      case Failure(e) => Failure(Database(e))
      case Success(db1) =>
        var db2 := SaveHistory(db1, walletId, amount, description, f.now, Withdrawal);
        var event := WalletCudEvent(Uuids.ToString(f.eventId), f.now, Uuids.ToString(walletId), "",
                                    WalletBalanceChange(walletAmount, Withdrawal));
        var db3 := SaveOutbox(db2, WALLET_EVENT, Uuids.ToString(walletId), WALLET_BALANCE_CHANGE_EVENT, event);
        Success((FindById(db3.wallets, walletId), db3))
  }

  // ----- increaseWalletAmount

  /** `increaseWalletAmount`: the deposit update with no check, one
      replenishment history record and one "WalletBalanceChangeEvent" outbox
      row carrying the amount, even when no wallet has that id; returns the
      wallet as re-read, None when it does not exist. */
  function IncreaseWalletAmount(db: Db, walletId: Uuid, amount: Long, description: string, f: Fresh)
    : (r: Result<(Option<WalletEntity>, Db), ServiceError>)
    ensures r.Failure? <==> walletId in db.wallets && !(LONG_MIN <= db.wallets[walletId].amount + amount <= LONG_MAX)
    ensures r.Failure? ==> r.error == Database(BigintOutOfRange)
    ensures r.Success? ==>
              var res := r.value.0;
              var db' := r.value.1;
              && (walletId in db.wallets ==>
                    && db'.wallets == db.wallets[walletId := db.wallets[walletId].(amount := db.wallets[walletId].amount + amount)]
                    && res == Some(db'.wallets[walletId]))
              && (walletId !in db.wallets ==> db'.wallets == db.wallets && res == None)
              && db'.history == db.history + [HistoryRecord(db.nextHistoryId, walletId, f.now, amount, description, Replenishment)]
              && OutboxGrewByOne(db.outbox, db'.outbox, Uuids.ToString(walletId), WALLET_BALANCE_CHANGE_EVENT,
                                 "", WalletBalanceChange(amount, Replenishment))
              && db'.payments == db.payments && db'.eventLog == db.eventLog
  {
    match DepositAmount(db, walletId, amount)
    case Failure(e) => Failure(Database(e))
    case Success(db1) =>
      var db2 := SaveHistory(db1, walletId, amount, description, f.now, Replenishment);
      var event := WalletCudEvent(Uuids.ToString(f.eventId), f.now, Uuids.ToString(walletId), "",
                                  WalletBalanceChange(amount, Replenishment));
      var db3 := SaveOutbox(db2, WALLET_EVENT, Uuids.ToString(walletId), WALLET_BALANCE_CHANGE_EVENT, event);
      Success((FindById(db3.wallets, walletId), db3))
  }

  // ----- addWalletPayment

  /** `addWalletPayment`: finds the user's wallet, creating it when missing,
      and records one payment against it. It never fails: the creation it
      falls back to is reached only when the user has no wallet. */
  function AddWalletPayment(db: Db, userId: string, paymentId: string, description: string, status: string,
                            amount: Long, currency: string, createdAt: Time, f: Fresh): (r: Result<Db, ServiceError>)
    requires WalletTable(db)
    ensures r.Success?
    ensures HasUser(db.wallets, userId) ==> r.value.wallets == db.wallets
    ensures !HasUser(db.wallets, userId) ==> r.value.wallets == db.wallets[f.walletId := WalletEntity(Some(f.walletId), 0, userId, false, f.now)]
    ensures HasUser(r.value.wallets, userId)
    ensures var w := FindByUserId(r.value.wallets, userId).value;
            r.value.payments == db.payments +
              [WalletPayment(db.nextPaymentId, paymentId, w.id.value, status, amount, description, createdAt, currency)]
    ensures r.value.history == db.history && r.value.eventLog == db.eventLog
    ensures HasUser(db.wallets, userId) ==> r.value.outbox == db.outbox
    ensures !HasUser(db.wallets, userId) ==>
              OutboxGrewByOne(db.outbox, r.value.outbox, Uuids.ToString(f.walletId), WALLET_CREATE_EVENT, userId, WalletCreated(f.now, 0))
  {
    var found := FindByUserId(db.wallets, userId);
    var wallet := if found.Some? then Success((found.value, db)) else CreateWallet(db, userId, f);
    match wallet
    case Failure(e) => Failure(e)
    case Success(found) =>
      var w := found.0;
      var db1 := found.1;
      Success(SavePayment(db1, paymentId, w.id.value, status, amount, description, createdAt, currency))
  }

  // ----- properties across calls

  /** Every service operation keeps the tables' integrity constraints. */
  lemma CreateWalletKeepsValid(db: Db, userId: string, f: Fresh)
    requires ValidDb(db)
    ensures CreateWallet(db, userId, f).Success? ==> ValidDb(CreateWallet(db, userId, f).value.1)
  {
    var w := WalletEntity(Some(f.walletId), 0, userId, false, f.now);
    var s := SaveWallet(db, w);
    if !HasUser(db.wallets, userId) && s.Success? {
      SaveWalletKeepsValid(db, w);
      var walletId := Uuids.ToString(f.walletId);
      var event := WalletCudEvent(Uuids.ToString(f.eventId), f.now, walletId, userId, WalletCreated(f.now, 0));
      SaveOutboxKeepsValid(s.value, WALLET_EVENT, walletId, WALLET_CREATE_EVENT, event);
    }
  }

  lemma DecreaseWalletAmountKeepsValid(db: Db, walletId: Uuid, amount: Long, description: string, f: Fresh)
    requires ValidDb(db)
    ensures var r := DecreaseWalletAmount(db, walletId, amount, description, f);
            r.Success? ==> ValidDb(r.value.1)
  {
    var walletAmount := BalanceOrZero(db.wallets, walletId);
    var u := UpdateAmountWithdrawal(db, walletId, amount);
    if !InsufficientFunds(walletAmount, amount) && u.Success? {
      AdjustAmountKeepsValid(db, walletId, -(amount as int));
      var db2 := SaveHistory(u.value, walletId, amount, description, f.now, Withdrawal);
      SaveHistoryKeepsValid(u.value, walletId, amount, description, f.now, Withdrawal);
      var event := WalletCudEvent(Uuids.ToString(f.eventId), f.now, Uuids.ToString(walletId), "",
                                  WalletBalanceChange(walletAmount, Withdrawal));
      SaveOutboxKeepsValid(db2, WALLET_EVENT, Uuids.ToString(walletId), WALLET_BALANCE_CHANGE_EVENT, event);
    }
  }

  lemma IncreaseWalletAmountKeepsValid(db: Db, walletId: Uuid, amount: Long, description: string, f: Fresh)
    requires ValidDb(db)
    ensures var r := IncreaseWalletAmount(db, walletId, amount, description, f);
            r.Success? ==> ValidDb(r.value.1)
  {
    var u := DepositAmount(db, walletId, amount);
    if u.Success? {
      AdjustAmountKeepsValid(db, walletId, amount);
      var db2 := SaveHistory(u.value, walletId, amount, description, f.now, Replenishment);
      SaveHistoryKeepsValid(u.value, walletId, amount, description, f.now, Replenishment);
      var event := WalletCudEvent(Uuids.ToString(f.eventId), f.now, Uuids.ToString(walletId), "",
                                  WalletBalanceChange(amount, Replenishment));
      SaveOutboxKeepsValid(db2, WALLET_EVENT, Uuids.ToString(walletId), WALLET_BALANCE_CHANGE_EVENT, event);
    }
  }

  lemma AddWalletPaymentKeepsValid(db: Db, userId: string, paymentId: string, description: string, status: string,
                                   amount: Long, currency: string, createdAt: Time, f: Fresh)
    requires ValidDb(db)
    ensures ValidDb(AddWalletPayment(db, userId, paymentId, description, status, amount, currency, createdAt, f).value)
  {
    if !HasUser(db.wallets, userId) {
      CreateWalletKeepsValid(db, userId, f);
    }
  }

  /** With a wallet id that is not already taken (what a random UUID gives in
      practice), recording a payment changes no existing wallet: no balance
      moves when a payment is created. */
  lemma AddWalletPaymentMovesNoBalance(db: Db, userId: string, paymentId: string, description: string, status: string,
                                       amount: Long, currency: string, createdAt: Time, f: Fresh)
    requires WalletTable(db) && f.walletId !in db.wallets
    ensures var db' := AddWalletPayment(db, userId, paymentId, description, status, amount, currency, createdAt, f).value;
            && (forall k :: k in db.wallets ==> k in db'.wallets && db'.wallets[k] == db.wallets[k])
            && (forall k :: k in db'.wallets && k !in db.wallets ==> db'.wallets[k].amount == 0)
  {
  }

  /** A successful debit followed by a credit of the same amount restores the
      wallet's balance; the history keeps both records, oldest first. */
  lemma DebitThenCreditRestoresBalance(db: Db, walletId: Uuid, amount: Long, description: string, f1: Fresh, f2: Fresh)
    requires DecreaseWalletAmount(db, walletId, amount, description, f1).Success?
    ensures var db1 := DecreaseWalletAmount(db, walletId, amount, description, f1).value.1;
            var r := IncreaseWalletAmount(db1, walletId, amount, description, f2);
            && r.Success?
            && r.value.1.wallets == db.wallets
            && r.value.1.history == db.history + [
                 HistoryRecord(db.nextHistoryId, walletId, f1.now, amount, description, Withdrawal),
                 HistoryRecord(db.nextHistoryId + 1, walletId, f2.now, amount, description, Replenishment)]
  {
    var db1 := DecreaseWalletAmount(db, walletId, amount, description, f1).value.1;
    assert db1.wallets[walletId].amount + amount == db.wallets[walletId].amount;
    assert db1.wallets[walletId := db1.wallets[walletId].(amount := db.wallets[walletId].amount)] == db.wallets;
  }

  /** A credit to a missing wallet moves no balance but still leaves a history
      record and an outbox row behind. */
  lemma CreditToMissingWalletLeavesTraces(db: Db, walletId: Uuid, amount: Long, description: string, f: Fresh)
    requires walletId !in db.wallets
    ensures var r := IncreaseWalletAmount(db, walletId, amount, description, f);
            && r.Success? && r.value.0 == None && r.value.1.wallets == db.wallets
            && |r.value.1.history| == |db.history| + 1 && |r.value.1.outbox| == |db.outbox| + 1
  {
  }

  /** The credit path has no check of its own: a negative amount credited to
      a wallet takes its balance below zero. */
  lemma NegativeCreditOverdraws(db: Db, walletId: Uuid, description: string, f: Fresh)
    requires walletId in db.wallets && db.wallets[walletId].amount == 0
    ensures var r := IncreaseWalletAmount(db, walletId, -1, description, f);
            r.Success? && r.value.1.wallets[walletId].amount == -1
  {
  }

  /** The balance-history scenario: a new wallet, a credit of 10000, a debit
      of 4000 "rent", then a debit of 20000, which is refused and changes
      nothing. */
  lemma LedgerScenario(userId: string, f0: Fresh, f1: Fresh, f2: Fresh, f3: Fresh)
    ensures var c := CreateWallet(EmptyDb, userId, f0);
            && c.Success?
            && var (w, db0) := c.value;
               var walletId := w.id.value;
               var up := IncreaseWalletAmount(db0, walletId, 10000, "top-up", f1);
               && up.Success? && up.value.0.value.amount == 10000
               && var db1 := up.value.1;
                  var down := DecreaseWalletAmount(db1, walletId, 4000, "rent", f2);
                  && down.Success? && down.value.0.value.amount == 6000
                  && var db2 := down.value.1;
                     && |db2.history| == 2
                     && db2.history[0].kind == Replenishment && db2.history[0].amount == 10000
                     && db2.history[1].kind == Withdrawal && db2.history[1].amount == 4000
                     && DecreaseWalletAmount(db2, walletId, 20000, "too much", f3) == Failure(NotEnoughMoney(walletId))
  {
    var c := CreateWallet(EmptyDb, userId, f0);
    var (w, db0) := c.value;
    var walletId := f0.walletId;
    var up := IncreaseWalletAmount(db0, walletId, 10000, "top-up", f1);
    var db1 := up.value.1;
    assert db1.wallets[walletId].amount == 10000;
    var down := DecreaseWalletAmount(db1, walletId, 4000, "rent", f2);
    assert !InsufficientFunds(10000, 4000);
    var db2 := down.value.1;
    assert db2.wallets[walletId].amount == 6000;
    assert InsufficientFunds(6000, 20000);
  }
}
