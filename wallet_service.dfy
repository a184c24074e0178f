/** `WalletService` as the source runs it: step-by-step writes to the store,
    each method one transaction. Every method is proved to leave the store in
    the state its `WalletLedger` function computes, or, when it throws, in the
    state it found; none of them sends a message. */
module WalletService {
  import opened Wrappers
  import opened Jvm
  import opened Uuids
  import opened Entities
  import opened Tables
  import opened Ledger
  import opened WalletLedger
  import HistoryPagination

  /** `createWallet`. */
  method CreateWallet(store: Store, userId: string, f: Fresh) returns (r: Result<WalletEntity, ServiceError>)
    requires store.Valid()
    modifies store
    ensures store.Valid()
    ensures var spec := WalletLedger.CreateWallet(old(store.State()), userId, f);
            if spec.Success? then r == Success(spec.value.0) && store.State() == spec.value.1
            else r == Failure(spec.error) && store.State() == old(store.State())
    ensures store.replies == old(store.replies) && store.published == old(store.published)
  {
    CreateWalletKeepsValid(store.State(), userId, f);
    if FindByUserId(store.wallets, userId).Some? {
      return Failure(DuplicateWallet(userId));
    }
    var wallet := WalletEntity(Some(f.walletId), 0, userId, false, f.now);
    var saved := store.SaveWallet(wallet);
    assert saved.Pass?;
    var walletId := Uuids.ToString(f.walletId);
    var event := WalletCudEvent(Uuids.ToString(f.eventId), f.now, walletId, userId, WalletCreated(f.now, 0));
    store.SaveOutbox(WALLET_EVENT, walletId, WALLET_CREATE_EVENT, event);
    r := Success(wallet);
  }

  /** `decreaseWalletAmount`. */
  method DecreaseWalletAmount(store: Store, walletId: Uuid, amount: Long, description: string, f: Fresh)
    returns (r: Result<Option<WalletEntity>, ServiceError>)
    requires store.Valid()
    modifies store
    ensures store.Valid()
    ensures var spec := WalletLedger.DecreaseWalletAmount(old(store.State()), walletId, amount, description, f);
            if spec.Success? then r == Success(spec.value.0) && store.State() == spec.value.1
            else r == Failure(spec.error) && store.State() == old(store.State())
    ensures store.replies == old(store.replies) && store.published == old(store.published)
  {
    DecreaseWalletAmountKeepsValid(store.State(), walletId, amount, description, f);
    var wallet := FindById(store.wallets, walletId);
    var walletAmount := if wallet.Some? then wallet.value.amount else 0;
    if walletAmount <= 0 || WrapLong(walletAmount - amount) < 0 {
      return Failure(NotEnoughMoney(walletId));
    }
    DebitCheckMeansNoOverdraft(walletAmount, amount);
    var updated := store.UpdateAmountWithdrawalByWalletId(walletId, amount);
    assert updated.Pass?;
    store.SaveHistory(walletId, amount, description, f.now, Withdrawal);
    var event := WalletCudEvent(Uuids.ToString(f.eventId), f.now, Uuids.ToString(walletId), "",
                                WalletBalanceChange(walletAmount, Withdrawal));
    store.SaveOutbox(WALLET_EVENT, Uuids.ToString(walletId), WALLET_BALANCE_CHANGE_EVENT, event);
    r := Success(FindById(store.wallets, walletId));
  }

  /** `increaseWalletAmount`. */
  method IncreaseWalletAmount(store: Store, walletId: Uuid, amount: Long, description: string, f: Fresh)
    returns (r: Result<Option<WalletEntity>, ServiceError>)
    requires store.Valid()
    modifies store
    ensures store.Valid()
    ensures var spec := WalletLedger.IncreaseWalletAmount(old(store.State()), walletId, amount, description, f);
            if spec.Success? then r == Success(spec.value.0) && store.State() == spec.value.1
            else r == Failure(spec.error) && store.State() == old(store.State())
    ensures store.replies == old(store.replies) && store.published == old(store.published)
  {
    IncreaseWalletAmountKeepsValid(store.State(), walletId, amount, description, f);
    var deposited := store.DepositAmountByWalletId(walletId, amount);
    if deposited.Fail? {
      return Failure(Database(deposited.error));
    }
    store.SaveHistory(walletId, amount, description, f.now, Replenishment);
    var event := WalletCudEvent(Uuids.ToString(f.eventId), f.now, Uuids.ToString(walletId), "",
                                WalletBalanceChange(amount, Replenishment));
    store.SaveOutbox(WALLET_EVENT, Uuids.ToString(walletId), WALLET_BALANCE_CHANGE_EVENT, event);
    r := Success(FindById(store.wallets, walletId));
  }

  /** `addWalletPayment`. */
  method AddWalletPayment(store: Store, userId: string, paymentId: string, description: string, status: string,
                          amount: Long, currency: string, createdAt: Time, f: Fresh)
    requires store.Valid()
    modifies store
    ensures store.Valid()
    ensures store.State() == WalletLedger.AddWalletPayment(old(store.State()), userId, paymentId, description, status,
                                                           amount, currency, createdAt, f).value
    ensures store.replies == old(store.replies) && store.published == old(store.published)
  {
    AddWalletPaymentKeepsValid(store.State(), userId, paymentId, description, status, amount, currency, createdAt, f);
    var wallet := FindByUserId(store.wallets, userId);
    if wallet.None? {
      var created := CreateWallet(store, userId, f);
      assert created.Success?;
      wallet := Some(created.value);
    }
    store.SavePayment(paymentId, wallet.value.id.value, status, amount, description, createdAt, currency);
  }

  /** `findWalletHistory`: a continuation token selects the next-page query,
      which ignores the wallet and the bounds; without one the first-page
      query runs. Neither writes anything. */
  method FindWalletHistory(store: Store, walletId: Uuid, fromDate: Option<Time>, toDate: Option<Time>,
                           continuationToken: Option<HistoryPagination.ContinuationToken>, limit: Int)
    returns (r: Result<HistoryPagination.CreatePageCall, HistoryPagination.QueryError>)
    ensures continuationToken.Some? ==>
              r == HistoryPagination.FindNextWalletHistory(store.history, continuationToken.value, limit)
    ensures continuationToken.None? ==>
              r == HistoryPagination.FindWalletHistory(store.history, walletId, fromDate, toDate, limit)
  {
    if continuationToken.Some? {
      r := HistoryPagination.FindNextWalletHistoryIn(store, continuationToken.value, limit);
    } else {
      r := HistoryPagination.FindWalletHistoryIn(store, walletId, fromDate, toDate, limit);
    }
  }
}
