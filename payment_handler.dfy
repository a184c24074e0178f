/** The two `PaymentChangeEventHandler`s as the source runs them: a loop over
    the batch that writes to the store event by event. On an exception the
    batch's transaction rolls back to the tables as they were before it. Each
    method is proved to leave the store as its `PaymentHandling` function
    says. */
module PaymentHandler {
  import opened Wrappers
  import opened Jvm
  import opened Entities
  import opened Tables
  import opened Ledger
  import opened WalletLedger
  import opened PaymentHandling
  import WalletService

  /** The PaymentCreated branch: read the creation time, then add the
      payment. On failure nothing has been written. */
  method RecordPaymentIn(store: Store, c: PaymentChange, f: Fresh) returns (r: Outcome<HandlerError>)
    requires store.Valid() && c.PaymentCreated?
    modifies store
    ensures store.Valid()
    ensures var spec := PaymentHandling.RecordPayment(old(store.State()), c, f);
            if spec.Success? then r == Pass && store.State() == spec.value
            else r == Fail(spec.error) && store.State() == old(store.State())
    ensures store.replies == old(store.replies) && store.published == old(store.published)
  {
    var createdAtUtc := OfEpochSecond(c.createdAt.seconds, c.createdAt.nanos);
    if createdAtUtc.Failure? {
      return Fail(BadTimestamp(createdAtUtc.error));
    }
    WalletService.AddWalletPayment(store, c.userId, c.paymentId, c.description, c.status.name, c.amount, c.currency,
                                   createdAtUtc.value, f);
    r := Pass;
  }

  /** The PaymentStatusChanged branch: look the payment up; on SUCCESS credit
      its wallet and then set its status. On failure nothing has been
      written. */
  method ChangeStatusIn(store: Store, paymentId: string, status: PaymentStatus, f: Fresh) returns (r: Outcome<HandlerError>)
    requires store.Valid()
    modifies store
    ensures store.Valid()
    ensures var spec := PaymentHandling.ChangeStatus(old(store.State()), paymentId, status, f);
            if spec.Success? then r == Pass && store.State() == spec.value
            else r == Fail(spec.error) && store.State() == old(store.State())
    ensures store.replies == old(store.replies) && store.published == old(store.published)
  {
    var walletPayment := StoredPayment(store.State(), paymentId);
    if walletPayment.Failure? {
      return Fail(walletPayment.error);
    }
    var p := walletPayment.value;
    if status == SUCCESS {
      var credited := WalletService.IncreaseWalletAmount(store, p.walletId, p.amount, p.description, f);
      if credited.Failure? {
        return Fail(ServiceFailed(credited.error));
      }
      UpdatePaymentStatusKeepsValid(store.State(), paymentId, status.name);
      store.UpdatePaymentStatus(paymentId, status.name);
    }
    r := Pass;
  }

  /** The PaymentRefund branch: look the payment up and debit its wallet. On
      failure nothing has been written. */
  method RefundIn(store: Store, paymentId: string, refundAmount: Long, description: string, f: Fresh)
    returns (r: Outcome<HandlerError>)
    requires store.Valid()
    modifies store
    ensures store.Valid()
    ensures var spec := PaymentHandling.Refund(old(store.State()), paymentId, refundAmount, description, f);
            if spec.Success? then r == Pass && store.State() == spec.value
            else r == Fail(spec.error) && store.State() == old(store.State())
    ensures store.replies == old(store.replies) && store.published == old(store.published)
  {
    var walletPayment := StoredPayment(store.State(), paymentId);
    if walletPayment.Failure? {
      return Fail(walletPayment.error);
    }
    var debited := WalletService.DecreaseWalletAmount(store, walletPayment.value.walletId, refundAmount, description, f);
    if debited.Failure? {
      return Fail(ServiceFailed(debited.error));
    }
    r := Pass;
  }

  /** One event's dispatch, shared by both handlers. On failure nothing has
      been written. */
  method ApplyChange(store: Store, change: PaymentChange, f: Fresh) returns (r: Outcome<HandlerError>)
    requires store.Valid()
    modifies store
    ensures store.Valid()
    ensures var spec := PaymentHandling.ApplyChange(old(store.State()), change, f);
            if spec.Success? then r == Pass && store.State() == spec.value
            else r == Fail(spec.error) && store.State() == old(store.State())
    ensures store.replies == old(store.replies) && store.published == old(store.published)
  {
    match change
    case PaymentCreated(_, _, _, _, _, _, _) =>
      r := RecordPaymentIn(store, change, f);
    case PaymentStatusChanged(paymentId, status) =>
      r := ChangeStatusIn(store, paymentId, status, f);
    case PaymentRefund(paymentId, refundAmount, description) =>
      r := RefundIn(store, paymentId, refundAmount, description, f);
    case NoChange =>
      r := Pass;
  }

  /** `handle` of `handler/payment/PaymentChangeEventHandler`. */
  method Handle(store: Store, events: seq<PaymentEvent>, draws: seq<Fresh>) returns (r: Outcome<HandlerError>)
    requires store.Valid() && |draws| == |events|
    modifies store
    ensures store.Valid()
    ensures var spec := PaymentHandling.Handle(old(store.State()), events, draws);
            if spec.Success? then r == Pass && store.State() == spec.value
            else r == Fail(spec.error) && store.State() == old(store.State())
    ensures store.replies == old(store.replies) && store.published == old(store.published)
  {
    var snapshot := store.State();
    var i := 0;
    while i < |events|
      invariant 0 <= i <= |events|
      invariant store.Valid()
      invariant PaymentHandling.Handle(snapshot, events, draws) == PaymentHandling.Handle(store.State(), events[i..], draws[i..])
      invariant store.replies == old(store.replies) && store.published == old(store.published)
    {
      var event := events[i];
      if event.eventId in store.eventLog {
        i := i + 1;
        continue;
      }
      var applied := ApplyChange(store, ChangeOf(event), draws[i]);
      if applied.Fail? {
        store.Rollback(snapshot);
        return applied;
      }
      store.SaveEventLog(event.eventId, draws[i].now);
      i := i + 1;
    }
    r := Pass;
  }

  /** `handle` of the legacy `handler/PaymentChangeEventHandler`. */
  method HandleLegacy(store: Store, events: seq<PaymentEvent>, draws: seq<Fresh>) returns (r: Outcome<HandlerError>)
    requires store.Valid() && |draws| == |events|
    modifies store
    ensures store.Valid()
    ensures var spec := PaymentHandling.HandleLegacy(old(store.State()), events, draws);
            if spec.Success? then r == Pass && store.State() == spec.value
            else r == Fail(spec.error) && store.State() == old(store.State())
    ensures store.replies == old(store.replies) && store.published == old(store.published)
  {
    var snapshot := store.State();
    var i := 0;
    while i < |events|
      invariant 0 <= i <= |events|
      invariant store.Valid()
      invariant PaymentHandling.HandleLegacy(snapshot, events, draws)
             == PaymentHandling.HandleLegacy(store.State(), events[i..], draws[i..])
      invariant store.replies == old(store.replies) && store.published == old(store.published)
    {
      var applied := ApplyChange(store, ChangeOf(events[i]), draws[i]);
      if applied.Fail? {
        store.Rollback(snapshot);
        return applied;
      }
      i := i + 1;
    }
    r := Pass;
  }
}
