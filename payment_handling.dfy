/** The payment-event handlers as functions on the tables: the per-event
    dispatch shared by both handlers, the idempotent batch handler (which
    consults and fills the event log) and the legacy batch handler (which
    does not). A batch runs in one transaction: any failure leaves the tables
    as they were before the batch. */
module PaymentHandling {
  import opened Wrappers
  import opened Jvm
  import opened Uuids
  import opened Entities
  import opened Tables
  import opened WalletLedger

  /** A `PaymentStatus` enum constant, by its name. */
  datatype PaymentStatus = PaymentStatus(name: string)

  const SUCCESS := PaymentStatus("SUCCESS")

  /** A protobuf `Timestamp`. */
  datatype Timestamp = Timestamp(seconds: Long, nanos: Int)

  /** The `paymentChange` oneof; `NoChange` is the default instance, with none
      of the three variants set. */
  datatype PaymentChange =
    | PaymentCreated(userId: string, paymentId: string, description: string, status: PaymentStatus,
                     amount: Long, currency: string, createdAt: Timestamp)
    | PaymentStatusChanged(paymentId: string, status: PaymentStatus)
    | PaymentRefund(paymentId: string, refundAmount: Long, description: string)
    | NoChange

  /** The event payload: a payment change, or some other payload. */
  datatype PaymentPayload = PaymentChangePayload(change: PaymentChange) | OtherPayload

  datatype PaymentEvent = PaymentEvent(eventId: string, payload: PaymentPayload)

  /** What a batch can fail with: an exception from the service, a failed or
      empty payment lookup (the `!!` on `findByPaymentId`), or a creation
      timestamp `LocalDateTime.ofEpochSecond` refuses. */
  datatype HandlerError =
    | ServiceFailed(cause: ServiceError)
    | PaymentLookupFailed(dbError: DbError)
    | PaymentNotFound(paymentId: string)
    | BadTimestamp(timeError: DateTimeError)

  /** `paymentEvent.payload.paymentChange`: the default instance when the
      payload holds something else. */
  function ChangeOf(e: PaymentEvent): PaymentChange {
    match e.payload
    case PaymentChangePayload(change) => change
    case OtherPayload => NoChange
  }

  /** `isHandle`, the same in both handlers: the payload holds a payment
      change. An event it declines would have no effect on the handler. */
  function IsHandle(e: PaymentEvent): (accepted: bool)
    ensures !accepted ==> ChangeOf(e) == NoChange
  {
    e.payload.PaymentChangePayload?
  }

  /** `findByPaymentId(...)!!`. */
  function StoredPayment(db: Db, paymentId: string): (r: Result<WalletPayment, HandlerError>)
    ensures r.Success? ==> r.value in db.payments && r.value.paymentId == paymentId
    ensures r.Success? ==> forall p :: p in db.payments && p.paymentId == paymentId ==> p == r.value
    ensures (forall p :: p in db.payments ==> p.paymentId != paymentId) ==> r == Failure(PaymentNotFound(paymentId))
  {
    match FindByPaymentId(db.payments, paymentId)
    case Failure(e) => Failure(PaymentLookupFailed(e))
    case Success(None) => Failure(PaymentNotFound(paymentId))
    case Success(Some(p)) => Success(p)
  }

  /** The PaymentCreated branch: `addWalletPayment` with the payment's
      fields, its creation time read by `LocalDateTime.ofEpochSecond` in UTC
      (evaluated first, as the last argument of the call). */
  function RecordPayment(db: Db, c: PaymentChange, f: Fresh): (r: Result<Db, HandlerError>)
    requires ValidDb(db) && c.PaymentCreated?
    ensures r.Success? ==> ValidDb(r.value) && r.value.eventLog == db.eventLog
    ensures r.Success? <==> OfEpochSecond(c.createdAt.seconds, c.createdAt.nanos).Success?
    ensures r.Success? ==> |r.value.payments| == |db.payments| + 1 && r.value.payments[..|db.payments|] == db.payments
    ensures r.Success? ==> r.value.wallets.Keys <= db.wallets.Keys + {f.walletId}
    ensures r.Success? ==> var p := r.value.payments[|db.payments|];
              && p.paymentId == c.paymentId && p.status == c.status.name && p.amount == c.amount
              && p.description == c.description && p.currency == c.currency
              && FindByUserId(r.value.wallets, c.userId).Some?
              && p.walletId == FindByUserId(r.value.wallets, c.userId).value.id.value
  {
    match OfEpochSecond(c.createdAt.seconds, c.createdAt.nanos)
    case Failure(e) => Failure(BadTimestamp(e))
    case Success(t) =>
      AddWalletPaymentKeepsValid(db, c.userId, c.paymentId, c.description, c.status.name, c.amount, c.currency, t, f);
      Success(AddWalletPayment(db, c.userId, c.paymentId, c.description, c.status.name, c.amount, c.currency, t, f).value)
  }

  /** The PaymentStatusChanged branch: the stored payment must exist; on
      SUCCESS its amount is credited to its wallet and then its status set. */
  function ChangeStatus(db: Db, paymentId: string, status: PaymentStatus, f: Fresh): (r: Result<Db, HandlerError>)
    requires ValidDb(db)
    ensures r.Success? ==> ValidDb(r.value) && r.value.eventLog == db.eventLog
    ensures StoredPayment(db, paymentId).Failure? ==> r == Failure(StoredPayment(db, paymentId).error)
    ensures status != SUCCESS && StoredPayment(db, paymentId).Success? ==> r == Success(db)
  {
    match StoredPayment(db, paymentId)
    case Failure(e) => Failure(e)
    case Success(p) =>
      if status == SUCCESS then
        IncreaseWalletAmountKeepsValid(db, p.walletId, p.amount, p.description, f);
        match IncreaseWalletAmount(db, p.walletId, p.amount, p.description, f)
        case Failure(e) => Failure(ServiceFailed(e))
        case Success(credited) =>
          var db1 := credited.1;
          UpdatePaymentStatusKeepsValid(db1, paymentId, status.name);
          Success(db1.(payments := UpdatePaymentStatus(db1.payments, paymentId, status.name)))
      else Success(db)
  }

  /** The PaymentRefund branch: the stored payment must exist; the refund
      amount is debited from its wallet, with the debit's check. */
  function Refund(db: Db, paymentId: string, refundAmount: Long, description: string, f: Fresh): (r: Result<Db, HandlerError>)
    requires ValidDb(db)
    ensures r.Success? ==> ValidDb(r.value) && r.value.eventLog == db.eventLog
    ensures StoredPayment(db, paymentId).Failure? ==> r == Failure(StoredPayment(db, paymentId).error)
  {
    match StoredPayment(db, paymentId)
    case Failure(e) => Failure(e)
    case Success(p) =>
      DecreaseWalletAmountKeepsValid(db, p.walletId, refundAmount, description, f);
      match DecreaseWalletAmount(db, p.walletId, refundAmount, description, f)
      case Failure(e) => Failure(ServiceFailed(e))
      case Success(debited) => Success(debited.1)
  }

  /** A refund of a stored payment goes through exactly when its wallet
      exists and passes the debit check, and then lowers that wallet by the
      refund amount; otherwise it fails with NotEnoughMoney. */
  lemma RefundDebitsStoredWallet(db: Db, paymentId: string, refundAmount: Long, description: string, f: Fresh)
    requires ValidDb(db) && StoredPayment(db, paymentId).Success?
    ensures var walletId := StoredPayment(db, paymentId).value.walletId;
            var r := Refund(db, paymentId, refundAmount, description, f);
            && (r.Success? <==> walletId in db.wallets && !InsufficientFunds(db.wallets[walletId].amount, refundAmount))
            && (r.Success? ==> r.value.wallets == db.wallets[walletId := db.wallets[walletId].(amount := db.wallets[walletId].amount - refundAmount)])
            && (r.Failure? ==> r.error == ServiceFailed(NotEnoughMoney(walletId)))
  {
    var walletId := StoredPayment(db, paymentId).value.walletId;
    if walletId in db.wallets {
      DebitCheckMeansNoOverdraft(db.wallets[walletId].amount, refundAmount);
    }
  }

  /** The body of the loop, shared by both handlers: dispatch on the change
      variant; an unset change does nothing. */
  function ApplyChange(db: Db, change: PaymentChange, f: Fresh): (r: Result<Db, HandlerError>)
    requires ValidDb(db)
    ensures r.Success? ==> ValidDb(r.value) && r.value.eventLog == db.eventLog
    ensures change.NoChange? ==> r == Success(db)
  {
    match change
    case PaymentCreated(_, _, _, _, _, _, _) => RecordPayment(db, change, f)
    case PaymentStatusChanged(paymentId, status) => ChangeStatus(db, paymentId, status, f)
    case PaymentRefund(paymentId, refundAmount, description) => Refund(db, paymentId, refundAmount, description, f)
    case NoChange => Success(db)
  }

  /** The idempotent handler's step for one event: skip an id already in the
      event log, otherwise apply the change and log the id. */
  function HandleOne(db: Db, e: PaymentEvent, f: Fresh): (r: Result<Db, HandlerError>)
    requires ValidDb(db)
    ensures r.Success? ==> ValidDb(r.value)
    ensures e.eventId in db.eventLog ==> r == Success(db)
    ensures r.Success? ==> e.eventId in r.value.eventLog && r.value.eventLog.Keys == db.eventLog.Keys + {e.eventId}
  {
    if e.eventId in db.eventLog then Success(db)
    else
      match ApplyChange(db, ChangeOf(e), f)
      case Failure(err) => Failure(err)
      case Success(db1) => Success(SaveEventLog(db1, e.eventId, f.now))
  }

  /** `handle` of `handler/payment/PaymentChangeEventHandler`: the events in
      order, each with the fresh values its processing draws. */
  function Handle(db: Db, events: seq<PaymentEvent>, draws: seq<Fresh>): (r: Result<Db, HandlerError>)
    requires ValidDb(db) && |draws| == |events|
    ensures r.Success? ==> ValidDb(r.value)
    decreases |events|
  {
    if events == [] then Success(db)
    else
      match HandleOne(db, events[0], draws[0])
      case Failure(err) => Failure(err)
      case Success(db1) => Handle(db1, events[1..], draws[1..])
  }

  /** `handle` of the legacy `handler/PaymentChangeEventHandler`: the same
      dispatch with no event log. */
  function HandleLegacy(db: Db, events: seq<PaymentEvent>, draws: seq<Fresh>): (r: Result<Db, HandlerError>)
    requires ValidDb(db) && |draws| == |events|
    ensures r.Success? ==> ValidDb(r.value) && r.value.eventLog == db.eventLog
    decreases |events|
  {
    if events == [] then Success(db)
    else
      match ApplyChange(db, ChangeOf(events[0]), draws[0])
      case Failure(err) => Failure(err)
      case Success(db1) => HandleLegacy(db1, events[1..], draws[1..])
  }

  // ----- dedup

  function EventIds(events: seq<PaymentEvent>): set<string> {
    set e | e in events :: e.eventId
  }

  /** After a batch commits, every event id in it is in the event log, and
      the log holds nothing else new. */
  lemma {:induction false} HandleLogsEveryEvent(db: Db, events: seq<PaymentEvent>, draws: seq<Fresh>)
    requires ValidDb(db) && |draws| == |events|
    requires Handle(db, events, draws).Success?
    ensures Handle(db, events, draws).value.eventLog.Keys == db.eventLog.Keys + EventIds(events)
    decreases |events|
  {
    if events != [] {
      var db1 := HandleOne(db, events[0], draws[0]).value;
      assert Handle(db, events, draws) == Handle(db1, events[1..], draws[1..]);
      HandleLogsEveryEvent(db1, events[1..], draws[1..]);
      EventIdsCons(events);
    }
  }

  lemma EventIdsCons(events: seq<PaymentEvent>)
    requires events != []
    ensures EventIds(events) == {events[0].eventId} + EventIds(events[1..])
  {
    assert events == [events[0]] + events[1..];
  }

  /** A batch whose every event id is already logged changes nothing. */
  lemma {:induction false} LoggedBatchIsNoOp(db: Db, events: seq<PaymentEvent>, draws: seq<Fresh>)
    requires ValidDb(db) && |draws| == |events|
    requires forall e :: e in events ==> e.eventId in db.eventLog
    ensures Handle(db, events, draws) == Success(db)
    decreases |events|
  {
    if events != [] {
      assert events[0] in events;
      LoggedBatchIsNoOp(db, events[1..], draws[1..]);
    }
  }

  /** Redelivering a committed batch is a no-op: the idempotent handler is
      idempotent, whatever fresh values the second delivery draws. */
  lemma HandleIsIdempotent(db: Db, events: seq<PaymentEvent>, draws: seq<Fresh>, draws2: seq<Fresh>)
    requires ValidDb(db) && |draws| == |events| && |draws2| == |events|
    requires Handle(db, events, draws).Success?
    ensures Handle(Handle(db, events, draws).value, events, draws2) == Handle(db, events, draws)
  {
    var db1 := Handle(db, events, draws).value;
    HandleLogsEveryEvent(db, events, draws);
    forall e | e in events ensures e.eventId in db1.eventLog {
      assert e.eventId in EventIds(events);
    }
    LoggedBatchIsNoOp(db1, events, draws2);
  }

  /** A batch split in two runs as its first part followed by its second. */
  lemma {:induction false} HandleAppend(db: Db, es1: seq<PaymentEvent>, fs1: seq<Fresh>, es2: seq<PaymentEvent>, fs2: seq<Fresh>)
    requires ValidDb(db) && |fs1| == |es1| && |fs2| == |es2|
    ensures Handle(db, es1 + es2, fs1 + fs2) ==
              match Handle(db, es1, fs1)
              case Failure(err) => Failure(err)
              case Success(db1) => Handle(db1, es2, fs2)
    decreases |es1|
  {
    if es1 == [] {
      assert es1 + es2 == es2 && fs1 + fs2 == fs2;
    } else {
      assert (es1 + es2)[1..] == es1[1..] + es2 && (fs1 + fs2)[1..] == fs1[1..] + fs2;
      match HandleOne(db, es1[0], fs1[0])
      case Failure(err) =>
      case Success(db1) => HandleAppend(db1, es1[1..], fs1[1..], es2, fs2);
    }
  }

  /** An event whose id already occurred earlier in the same batch is
      skipped: appending it to the batch changes nothing. */
  lemma RepeatInBatchIsSkipped(db: Db, events: seq<PaymentEvent>, draws: seq<Fresh>, e: PaymentEvent, f: Fresh)
    requires ValidDb(db) && |draws| == |events|
    requires exists i :: 0 <= i < |events| && events[i].eventId == e.eventId
    ensures Handle(db, events + [e], draws + [f]) == Handle(db, events, draws)
  {
    HandleAppend(db, events, draws, [e], [f]);
    var r := Handle(db, events, draws);
    if r.Success? {
      HandleLogsEveryEvent(db, events, draws);
      var i :| 0 <= i < |events| && events[i].eventId == e.eventId;
      assert events[i] in events;
      assert e.eventId in EventIds(events);
      assert Handle(r.value, [e], [f]) == Success(r.value);
    }
  }

  // ----- crediting a payment

  /** `updatePaymentStatus` does not change which row a paymentId finds,
      only its status. */
  lemma {:induction false} FilterOfUpdatedStatus(payments: seq<WalletPayment>, paymentId: string, status: string)
    ensures Seqs.Filter(UpdatePaymentStatus(payments, paymentId, status), (p: WalletPayment) => p.paymentId == paymentId)
         == UpdatePaymentStatus(Seqs.Filter(payments, (p: WalletPayment) => p.paymentId == paymentId), paymentId, status)
  {
    if payments != [] {
      FilterOfUpdatedStatus(payments[1..], paymentId, status);
      assert UpdatePaymentStatus(payments, paymentId, status)[1..] == UpdatePaymentStatus(payments[1..], paymentId, status);
    }
  }

  lemma StoredPaymentAfterStatusUpdate(db: Db, paymentId: string, status: string)
    requires StoredPayment(db, paymentId).Success?
    ensures StoredPayment(db.(payments := UpdatePaymentStatus(db.payments, paymentId, status)), paymentId)
         == Success(StoredPayment(db, paymentId).value.(status := status))
  {
    FilterOfUpdatedStatus(db.payments, paymentId, status);
  }

  /** The SUCCESS branch runs the credit and then the status update. */
  lemma ChangeStatusCredits(db: Db, paymentId: string, f: Fresh) returns (db1: Db)
    requires ValidDb(db)
    requires StoredPayment(db, paymentId).Success?
    requires var p := StoredPayment(db, paymentId).value;
             p.walletId in db.wallets && LONG_MIN <= db.wallets[p.walletId].amount + p.amount <= LONG_MAX
    ensures var p := StoredPayment(db, paymentId).value;
            && db1.payments == db.payments
            && db1.wallets == db.wallets[p.walletId := db.wallets[p.walletId].(amount := db.wallets[p.walletId].amount + p.amount)]
            && ChangeStatus(db, paymentId, SUCCESS, f) == Success(db1.(payments := UpdatePaymentStatus(db1.payments, paymentId, SUCCESS.name)))
  {
    var p := StoredPayment(db, paymentId).value;
    db1 := IncreaseWalletAmount(db, p.walletId, p.amount, p.description, f).value.1;
  }

  lemma StoredPaymentOfSamePayments(db: Db, db': Db, paymentId: string)
    requires db'.payments == db.payments
    ensures StoredPayment(db', paymentId) == StoredPayment(db, paymentId)
  {
  }

  /** A SUCCESS status change credits the stored payment's amount to its
      wallet and marks the payment SUCCESS, whatever its status was before;
      `db'` is the tables it leaves. */
  lemma SuccessCreditsStoredAmount(db: Db, paymentId: string, f: Fresh) returns (db': Db)
    requires ValidDb(db)
    requires StoredPayment(db, paymentId).Success?
    requires var p := StoredPayment(db, paymentId).value;
             p.walletId in db.wallets && LONG_MIN <= db.wallets[p.walletId].amount + p.amount <= LONG_MAX
    ensures ChangeStatus(db, paymentId, SUCCESS, f) == Success(db')
    ensures ValidDb(db') && db'.eventLog == db.eventLog
    ensures var p := StoredPayment(db, paymentId).value;
            && db'.wallets == db.wallets[p.walletId := db.wallets[p.walletId].(amount := db.wallets[p.walletId].amount + p.amount)]
            && StoredPayment(db', paymentId) == Success(p.(status := SUCCESS.name))
  {
    var db1 := ChangeStatusCredits(db, paymentId, f);
    db' := db1.(payments := UpdatePaymentStatus(db1.payments, paymentId, SUCCESS.name));
    StoredPaymentOfSamePayments(db, db1, paymentId);
    StoredPaymentAfterStatusUpdate(db1, paymentId, SUCCESS.name);
  }

  /** Crediting checks nothing about the payment's earlier status: a second
      SUCCESS change for the same payment credits its amount again. */
  lemma SecondSuccessCreditsAgain(db: Db, paymentId: string, f1: Fresh, f2: Fresh)
    requires ValidDb(db)
    requires StoredPayment(db, paymentId).Success?
    requires var p := StoredPayment(db, paymentId).value;
             p.walletId in db.wallets && LONG_MIN <= db.wallets[p.walletId].amount + 2 * p.amount <= LONG_MAX
             && LONG_MIN <= db.wallets[p.walletId].amount + p.amount <= LONG_MAX
    ensures var p := StoredPayment(db, paymentId).value;
            var once := ChangeStatus(db, paymentId, SUCCESS, f1);
            && once.Success?
            && var twice := ChangeStatus(once.value, paymentId, SUCCESS, f2);
               && twice.Success? && p.walletId in twice.value.wallets
               && twice.value.wallets[p.walletId].amount == db.wallets[p.walletId].amount + 2 * p.amount
  {
    var db1, db2 := CreditedTwice(db, paymentId, f1, f2);
  }

  /** Two SUCCESS changes in a row, through the tables they leave. */
  lemma CreditedTwice(db: Db, paymentId: string, f1: Fresh, f2: Fresh) returns (db1: Db, db2: Db)
    requires ValidDb(db)
    requires StoredPayment(db, paymentId).Success?
    requires var p := StoredPayment(db, paymentId).value;
             p.walletId in db.wallets && LONG_MIN <= db.wallets[p.walletId].amount + 2 * p.amount <= LONG_MAX
             && LONG_MIN <= db.wallets[p.walletId].amount + p.amount <= LONG_MAX
    ensures ChangeStatus(db, paymentId, SUCCESS, f1) == Success(db1)
    ensures ChangeStatus(db1, paymentId, SUCCESS, f2) == Success(db2)
    ensures ValidDb(db2) && db2.eventLog == db.eventLog
    ensures var p := StoredPayment(db, paymentId).value;
            p.walletId in db2.wallets && db2.wallets[p.walletId].amount == db.wallets[p.walletId].amount + 2 * p.amount
  {
    var p := StoredPayment(db, paymentId).value;
    db1 := SuccessCreditsStoredAmount(db, paymentId, f1);
    var p1 := p.(status := SUCCESS.name);
    assert p1.walletId == p.walletId && p1.amount == p.amount;
    db2 := SuccessCreditsStoredAmount(db1, paymentId, f2);
  }

  /** A one-event batch is one step of the handler. */
  lemma HandleSingle(db: Db, e: PaymentEvent, f: Fresh)
    requires ValidDb(db)
    ensures Handle(db, [e], [f]) == HandleOne(db, e, f)
  {
    assert [e][1..] == [] && [f][1..] == [];
  }

  /** A two-event batch is two steps of the handler. */
  lemma HandleTwo(db: Db, e1: PaymentEvent, e2: PaymentEvent, f1: Fresh, f2: Fresh)
    requires ValidDb(db)
    ensures Handle(db, [e1, e2], [f1, f2]) ==
              match HandleOne(db, e1, f1)
              case Failure(err) => Failure(err)
              case Success(db1) => HandleOne(db1, e2, f2)
  {
    assert [e1, e2][1..] == [e2] && [f1, f2][1..] == [f2];
    match HandleOne(db, e1, f1)
    case Failure(_) =>
    case Success(db1) => HandleSingle(db1, e2, f2);
  }

  /** An unlogged SUCCESS event for a stored payment: the credit, the status
      update and the logged id, through the tables it leaves. */
  lemma SuccessEventCredits(db: Db, paymentId: string, id: string, f: Fresh) returns (db1: Db)
    requires ValidDb(db) && id !in db.eventLog
    requires StoredPayment(db, paymentId).Success?
    requires var p := StoredPayment(db, paymentId).value;
             p.walletId in db.wallets && LONG_MIN <= db.wallets[p.walletId].amount + p.amount <= LONG_MAX
    ensures HandleOne(db, PaymentEvent(id, PaymentChangePayload(PaymentStatusChanged(paymentId, SUCCESS))), f) == Success(db1)
    ensures ValidDb(db1) && db1.eventLog.Keys == db.eventLog.Keys + {id}
    ensures var p := StoredPayment(db, paymentId).value;
            && db1.wallets == db.wallets[p.walletId := db.wallets[p.walletId].(amount := db.wallets[p.walletId].amount + p.amount)]
            && StoredPayment(db1, paymentId) == Success(p.(status := SUCCESS.name))
  {
    var c := SuccessCreditsStoredAmount(db, paymentId, f);
    db1 := SaveEventLog(c, id, f.now);
    StoredPaymentOfSamePayments(c, db1, paymentId);
  }

  /** The idempotent handler only guards event ids: two SUCCESS events for
      one payment under different ids credit it twice. */
  lemma DistinctIdsCreditTwice(db: Db, paymentId: string, id1: string, id2: string, f1: Fresh, f2: Fresh)
    requires ValidDb(db)
    requires id1 != id2 && id1 !in db.eventLog && id2 !in db.eventLog
    requires StoredPayment(db, paymentId).Success?
    requires var p := StoredPayment(db, paymentId).value;
             p.walletId in db.wallets && LONG_MIN <= db.wallets[p.walletId].amount + 2 * p.amount <= LONG_MAX
             && LONG_MIN <= db.wallets[p.walletId].amount + p.amount <= LONG_MAX
    ensures var p := StoredPayment(db, paymentId).value;
            var change := PaymentChangePayload(PaymentStatusChanged(paymentId, SUCCESS));
            var r := Handle(db, [PaymentEvent(id1, change), PaymentEvent(id2, change)], [f1, f2]);
            && r.Success? && p.walletId in r.value.wallets
            && r.value.wallets[p.walletId].amount == db.wallets[p.walletId].amount + 2 * p.amount
  {
    var change := PaymentChangePayload(PaymentStatusChanged(paymentId, SUCCESS));
    HandleTwo(db, PaymentEvent(id1, change), PaymentEvent(id2, change), f1, f2);
    var db1 := SuccessEventCredits(db, paymentId, id1, f1);
    var p := StoredPayment(db, paymentId).value;
    var p1 := p.(status := SUCCESS.name);
    assert p1.walletId == p.walletId && p1.amount == p.amount;
    var db2 := SuccessEventCredits(db1, paymentId, id2, f2);
  }

  /** The legacy handler has no event log: the same event delivered twice
      credits its payment twice. */
  lemma LegacyAppliesDuplicateTwice(db: Db, paymentId: string, eventId: string, f1: Fresh, f2: Fresh)
    requires ValidDb(db)
    requires StoredPayment(db, paymentId).Success?
    requires var p := StoredPayment(db, paymentId).value;
             p.walletId in db.wallets && LONG_MIN <= db.wallets[p.walletId].amount + 2 * p.amount <= LONG_MAX
             && LONG_MIN <= db.wallets[p.walletId].amount + p.amount <= LONG_MAX
    ensures var p := StoredPayment(db, paymentId).value;
            var e := PaymentEvent(eventId, PaymentChangePayload(PaymentStatusChanged(paymentId, SUCCESS)));
            var r := HandleLegacy(db, [e, e], [f1, f2]);
            && r.Success? && p.walletId in r.value.wallets
            && r.value.wallets[p.walletId].amount == db.wallets[p.walletId].amount + 2 * p.amount
  {
    var e := PaymentEvent(eventId, PaymentChangePayload(PaymentStatusChanged(paymentId, SUCCESS)));
    assert [e, e][1..] == [e] && [f1, f2][1..] == [f2];
    assert [e][1..] == [] && [f2][1..] == [];
    var db1, db2 := CreditedTwice(db, paymentId, f1, f2);
    assert ApplyChange(db, ChangeOf(e), f1) == Success(db1);
    assert ApplyChange(db1, ChangeOf(e), f2) == Success(db2);
    assert HandleLegacy(db1, [e], [f2]) == Success(db2);
  }

  /** A batch holding one event twice runs as the event alone. */
  lemma ReplayInBatchIsSkipped(db: Db, e: PaymentEvent, f1: Fresh, f2: Fresh)
    requires ValidDb(db)
    ensures Handle(db, [e, e], [f1, f2]) == Handle(db, [e], [f1])
  {
    assert [e][0].eventId == e.eventId;
    RepeatInBatchIsSkipped(db, [e], [f1], e, f2);
    assert [e] + [e] == [e, e] && [f1] + [f2] == [f1, f2];
  }

  /** One payment-created event records one payment and creates at most
      the wallet with the fresh id. */
  lemma CreatedRecordsOnePayment(db: Db, e: PaymentEvent, f: Fresh)
    requires ValidDb(db) && e.payload.PaymentChangePayload? && e.payload.change.PaymentCreated?
    requires e.eventId !in db.eventLog
    requires Handle(db, [e], [f]).Success?
    ensures var r := Handle(db, [e], [f]);
            && |r.value.payments| == |db.payments| + 1
            && r.value.wallets.Keys - db.wallets.Keys <= {f.walletId}
  {
    HandleSingle(db, e, f);
    assert ApplyChange(db, ChangeOf(e), f) == RecordPayment(db, e.payload.change, f);
  }

  /** Replaying a payment-created event under the same id records one
      payment and creates at most one wallet, the one with the fresh id. */
  lemma CreatedReplayRecordsOnePayment(db: Db, e: PaymentEvent, f1: Fresh, f2: Fresh)
    requires ValidDb(db) && e.payload.PaymentChangePayload? && e.payload.change.PaymentCreated?
    requires e.eventId !in db.eventLog
    requires Handle(db, [e], [f1]).Success?
    ensures var r := Handle(db, [e, e], [f1, f2]);
            && r == Handle(db, [e], [f1])
            && |r.value.payments| == |db.payments| + 1
            && r.value.wallets.Keys - db.wallets.Keys <= {f1.walletId}
  {
    ReplayInBatchIsSkipped(db, e, f1, f2);
    CreatedRecordsOnePayment(db, e, f1);
  }
}
