/** The store the service's transactions run against: the tables of
    `Tables` held as fields and updated in place by the repository methods,
    together with the two Kafka topics the service sends to. */
module Ledger {
  import opened Wrappers
  import opened Jvm
  import opened Uuids
  import opened Entities
  import opened Tables

  /** The store: the tables as fields that the repository methods update in
      place, plus the two topics the service sends to (`replies` is the wallet
      command response topic, `published` the wallet event topic). Sends are
      appends; Kafka itself is not modelled. */
  class Store {
    var wallets: map<Uuid, WalletEntity>
    var history: seq<HistoryRecord>
    var nextHistoryId: nat
    var outbox: seq<EventMessageOut>
    var nextOutboxId: nat
    var payments: seq<WalletPayment>
    var nextPaymentId: nat
    var eventLog: map<string, Time>
    var replies: seq<ProducerRecord<WalletReplyEvent>>
    var published: seq<ProducerRecord<WalletCudEvent>>

    /** The database part of the store, as a value. */
    function State(): Db
      reads this
    {
      Db(wallets, history, nextHistoryId, outbox, nextOutboxId, payments, nextPaymentId, eventLog)
    }

    ghost predicate Valid()
      reads this
    {
      ValidDb(State())
    }

    constructor ()
      ensures Valid() && State() == EmptyDb
      ensures replies == [] && published == []
    {
      wallets, history, nextHistoryId := map[], [], 0;
      outbox, nextOutboxId := [], 0;
      payments, nextPaymentId := [], 0;
      eventLog := map[];
      replies, published := [], [];
    }

    /** `walletRepository.save` of a wallet with an assigned id. */
    method SaveWallet(w: WalletEntity) returns (r: Outcome<DbError>)
      requires w.id.Some?
      modifies this`wallets
      ensures var spec := Tables.SaveWallet(old(State()), w);
              if spec.Success? then r == Pass && State() == spec.value
              else r == Fail(spec.error) && State() == old(State())
    {
      if exists k :: k in wallets && k != w.id.value && wallets[k].userId == w.userId {
        r := Fail(DuplicateUserId(w.userId));
      } else {
        wallets := wallets[w.id.value := w];
        r := Pass;
      }
    }

    /** `updateAmountWithdrawalByWalletId`. */
    method UpdateAmountWithdrawalByWalletId(walletId: Uuid, amount: Long) returns (r: Outcome<DbError>)
      modifies this`wallets
      ensures var spec := UpdateAmountWithdrawal(old(State()), walletId, amount);
              if spec.Success? then r == Pass && State() == spec.value
              else r == Fail(spec.error) && State() == old(State())
    {
      if walletId in wallets {
        var n := wallets[walletId].amount - amount;
        if LONG_MIN <= n <= LONG_MAX {
          wallets := wallets[walletId := wallets[walletId].(amount := n)];
          r := Pass;
        } else {
          r := Fail(BigintOutOfRange);
        }
      } else {
        r := Pass;
      }
    }

    /** `depositAmountByWalletId`. */
    method DepositAmountByWalletId(walletId: Uuid, amount: Long) returns (r: Outcome<DbError>)
      modifies this`wallets
      ensures var spec := DepositAmount(old(State()), walletId, amount);
              if spec.Success? then r == Pass && State() == spec.value
              else r == Fail(spec.error) && State() == old(State())
    {
      if walletId in wallets {
        var n := wallets[walletId].amount + amount;
        if LONG_MIN <= n <= LONG_MAX {
          wallets := wallets[walletId := wallets[walletId].(amount := n)];
          r := Pass;
        } else {
          r := Fail(BigintOutOfRange);
        }
      } else {
        r := Pass;
      }
    }

    /** `walletHistoryRepository.save`. */
    method SaveHistory(walletId: Uuid, amount: Long, description: string, occurredAt: Time, kind: ChangeType)
      modifies this`history, this`nextHistoryId
      ensures State() == Tables.SaveHistory(old(State()), walletId, amount, description, occurredAt, kind)
    {
      history := history + [HistoryRecord(nextHistoryId, walletId, occurredAt, amount, description, kind)];
      nextHistoryId := nextHistoryId + 1;
    }

    /** `eventMessageOutRepository.save`. */
    method SaveOutbox(aggregateType: string, aggregateId: string, kind: string, payload: WalletCudEvent)
      modifies this`outbox, this`nextOutboxId
      ensures State() == Tables.SaveOutbox(old(State()), aggregateType, aggregateId, kind, payload)
    {
      outbox := outbox + [EventMessageOut(nextOutboxId, aggregateType, aggregateId, kind, payload)];
      nextOutboxId := nextOutboxId + 1;
    }

    /** `eventLogRepository.save`. */
    method SaveEventLog(eventId: string, receivedAt: Time)
      modifies this`eventLog
      ensures State() == Tables.SaveEventLog(old(State()), eventId, receivedAt)
    {
      eventLog := eventLog[eventId := receivedAt];
    }

    /** `walletPaymentRepository.save`. */
    method SavePayment(paymentId: string, walletId: Uuid, status: string, amount: Long,
                       description: string, createdAt: Time, currency: string)
      modifies this`payments, this`nextPaymentId
      ensures State() == Tables.SavePayment(old(State()), paymentId, walletId, status, amount, description, createdAt, currency)
    {
      payments := payments + [WalletPayment(nextPaymentId, paymentId, walletId, status, amount, description, createdAt, currency)];
      nextPaymentId := nextPaymentId + 1;
    }

    /** `updatePaymentStatus`. */
    method UpdatePaymentStatus(paymentId: string, status: string)
      modifies this`payments
      ensures State() == old(State()).(payments := Tables.UpdatePaymentStatus(old(payments), paymentId, status))
    {
      payments := Tables.UpdatePaymentStatus(payments, paymentId, status);
    }

    /** `deleteAndGetFirstEventLog`. */
    method DeleteAndGetFirstEventLog() returns (r: Result<Option<EventMessage>, DbError>)
      modifies this`outbox
      ensures (r, State()) == Tables.DeleteAndGetFirstEventLog(old(State()))
    {
      var (deleted, rest) := DeleteLowest(outbox);
      if |deleted| == 1 {
        r := Success(Some(ToMessage(deleted[0])));
        outbox := rest;
      } else if |deleted| == 0 {
        r := Success(None);
      } else {
        r := Failure(TooManyDeletedRows(|deleted|));
      }
    }

    /** `kafkaTemplate.send` on the wallet command response topic. */
    method SendReply(record: ProducerRecord<WalletReplyEvent>)
      modifies this`replies
      ensures replies == old(replies) + [record] && State() == old(State())
    {
      replies := replies + [record];
    }

    /** `kafkaTemplate.send` on the wallet event topic. */
    method Publish(record: ProducerRecord<WalletCudEvent>)
      modifies this`published
      ensures published == old(published) + [record] && State() == old(State())
    {
      published := published + [record];
    }

    /** A transaction rollback: the tables return to the snapshot taken when
        the transaction began; messages already sent stay sent. */
    method Rollback(snapshot: Db)
      modifies this`wallets, this`history, this`nextHistoryId, this`outbox, this`nextOutboxId,
               this`payments, this`nextPaymentId, this`eventLog
      ensures State() == snapshot
    {
      wallets, history, nextHistoryId := snapshot.wallets, snapshot.history, snapshot.nextHistoryId;
      outbox, nextOutboxId := snapshot.outbox, snapshot.nextOutboxId;
      payments, nextPaymentId := snapshot.payments, snapshot.nextPaymentId;
      eventLog := snapshot.eventLog;
    }
  }
}
