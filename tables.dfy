/** The wallet service's persistent state — the `wallet`, `wallet_history`,
    `event_message_out`, `wallet_payment` and `event_log` tables — and the
    repository operations on it, as pure values and functions. `Ledger.Store`
    holds the same tables as fields and updates them in place. */
module Tables {
  import opened Wrappers
  import opened Jvm
  import opened Uuids
  import opened Entities
  import Seqs

  /** Errors raised by the database or by a repository. */
  datatype DbError =
    | BigintOutOfRange
    | DuplicateUserId(userId: string)
    | NonUniqueResult(count: nat)
    | TooManyDeletedRows(count: nat)

  datatype Db = Db(
    wallets: map<Uuid, WalletEntity>,
    history: seq<HistoryRecord>,
    nextHistoryId: nat,
    outbox: seq<EventMessageOut>,
    nextOutboxId: nat,
    payments: seq<WalletPayment>,
    nextPaymentId: nat,
    eventLog: map<string, Time>)

  const EmptyDb: Db := Db(map[], [], 0, [], 0, [], 0, map[])

  // ----- integrity of the tables

  /** Every wallet row is stored under its own id. */
  ghost predicate WalletsKeyed(wallets: map<Uuid, WalletEntity>) {
    forall k :: k in wallets ==> wallets[k].id == Some(k)
  }

  /** The unique constraint `wallet_user_id_idx`: no two wallets share a user. */
  ghost predicate UniqueUserIds(wallets: map<Uuid, WalletEntity>) {
    forall k1, k2 :: k1 in wallets && k2 in wallets && wallets[k1].userId == wallets[k2].userId ==> k1 == k2
  }

  /** Outbox ids come from a sequence: strictly increasing in insertion order
      and below the next value the sequence hands out. */
  ghost predicate OutboxOrdered(outbox: seq<EventMessageOut>, next: nat) {
    && (forall i, j :: 0 <= i < j < |outbox| ==> outbox[i].id < outbox[j].id)
    && (forall i :: 0 <= i < |outbox| ==> outbox[i].id < next)
  }

  ghost predicate ValidDb(db: Db) {
    && WalletsKeyed(db.wallets)
    && UniqueUserIds(db.wallets)
    && OutboxOrdered(db.outbox, db.nextOutboxId)
    && (forall i :: 0 <= i < |db.history| ==> db.history[i].id < db.nextHistoryId)
    && (forall i :: 0 <= i < |db.payments| ==> db.payments[i].id < db.nextPaymentId)
  }

  lemma EmptyDbValid()
    ensures ValidDb(EmptyDb)
  {
  }

  // ----- WalletRepository

  predicate HasUser(wallets: map<Uuid, WalletEntity>, userId: string) {
    exists k :: k in wallets && wallets[k].userId == userId
  }

  /** `findByUserId`: the one wallet the user owns, or None. */
  function FindByUserId(wallets: map<Uuid, WalletEntity>, userId: string): (r: Option<WalletEntity>)
    requires WalletsKeyed(wallets) && UniqueUserIds(wallets)
    ensures r.Some? <==> HasUser(wallets, userId)
    ensures r.Some? ==> && r.value.userId == userId
                        && r.value.id.Some? && r.value.id.value in wallets
                        && wallets[r.value.id.value] == r.value
  {
    if HasUser(wallets, userId) then
      var k :| k in wallets && wallets[k].userId == userId;
      Some(wallets[k])
    else None
  }

  /** A stored wallet is what a lookup by its owner finds. */
  lemma FindByUserIdOfMember(wallets: map<Uuid, WalletEntity>, k: Uuid)
    requires WalletsKeyed(wallets) && UniqueUserIds(wallets) && k in wallets
    ensures FindByUserId(wallets, wallets[k].userId) == Some(wallets[k])
  {
    var r := FindByUserId(wallets, wallets[k].userId);
    assert r.value.id.value == k;
  }

  /** `findById`, and `findByWalletIdWithLock`, whose row lock is not modelled. */
  function FindById(wallets: map<Uuid, WalletEntity>, walletId: Uuid): (r: Option<WalletEntity>)
    ensures r.Some? <==> walletId in wallets
    ensures r.Some? ==> r.value == wallets[walletId]
  {
    Get(wallets, walletId)
  }

  /** `save` of a wallet whose id is already assigned: JPA merges it, which
      inserts a new row or overwrites the row with that id; the unique
      constraint on `userId` rejects a second wallet for the same user. */
  function SaveWallet(db: Db, w: WalletEntity): (r: Result<Db, DbError>)
    requires w.id.Some?
    ensures r.Success? <==> forall k :: k in db.wallets && k != w.id.value ==> db.wallets[k].userId != w.userId
    ensures r.Success? ==> r.value == db.(wallets := db.wallets[w.id.value := w])
  {
    if exists k :: k in db.wallets && k != w.id.value && db.wallets[k].userId == w.userId then
      Failure(DuplicateUserId(w.userId))
    else
      Success(db.(wallets := db.wallets[w.id.value := w]))
  }

  /** The shared shape of the two `@Modifying` balance updates:
      `amount = amount + delta` on the row with that id, no row matched when
      the id is absent, and PostgreSQL's "bigint out of range" error when the
      new balance does not fit. */
  function AdjustAmount(db: Db, walletId: Uuid, delta: int): (r: Result<Db, DbError>)
    ensures walletId !in db.wallets ==> r == Success(db)
    ensures walletId in db.wallets ==>
              (r.Success? <==> LONG_MIN <= db.wallets[walletId].amount + delta <= LONG_MAX)
    ensures r.Success? ==> r.value == db.(wallets := r.value.wallets)
    ensures r.Success? ==> r.value.wallets.Keys == db.wallets.Keys
    ensures r.Success? ==> forall k :: k in db.wallets && k != walletId ==> r.value.wallets[k] == db.wallets[k]
    ensures r.Success? && walletId in db.wallets ==>
              && r.value.wallets[walletId].amount == db.wallets[walletId].amount + delta
              && r.value.wallets[walletId] == db.wallets[walletId].(amount := r.value.wallets[walletId].amount)
  {
    if walletId !in db.wallets then Success(db)
    else
      var w := db.wallets[walletId];
      var n := w.amount + delta;
      if LONG_MIN <= n <= LONG_MAX then Success(db.(wallets := db.wallets[walletId := w.(amount := n)]))
      else Failure(BigintOutOfRange)
  }

  /** `updateAmountWithdrawalByWalletId`: subtracts without any check of its own. */
  function UpdateAmountWithdrawal(db: Db, walletId: Uuid, amount: Long): (r: Result<Db, DbError>)
    ensures walletId !in db.wallets ==> r == Success(db)
    ensures walletId in db.wallets ==>
              (r.Success? <==> LONG_MIN <= db.wallets[walletId].amount - amount <= LONG_MAX)
    ensures r.Success? && walletId in db.wallets ==>
              var w := db.wallets[walletId];
              r.value == db.(wallets := db.wallets[walletId := w.(amount := w.amount - amount)])
  {
    AdjustAmount(db, walletId, -(amount as int))
  }

  /** `depositAmountByWalletId`: adds without any check of its own. */
  function DepositAmount(db: Db, walletId: Uuid, amount: Long): (r: Result<Db, DbError>)
    ensures walletId !in db.wallets ==> r == Success(db)
    ensures walletId in db.wallets ==>
              (r.Success? <==> LONG_MIN <= db.wallets[walletId].amount + amount <= LONG_MAX)
    ensures r.Success? && walletId in db.wallets ==>
              var w := db.wallets[walletId];
              r.value == db.(wallets := db.wallets[walletId := w.(amount := w.amount + amount)])
  {
    AdjustAmount(db, walletId, amount)
  }

  // ----- WalletHistoryRepository, EventMessageOutRepository, EventLogRepository (saves)

  /** `save` of a new history row; the id comes from the table's sequence. */
  function SaveHistory(db: Db, walletId: Uuid, amount: Long, description: string, occurredAt: Time, kind: ChangeType): (r: Db)
    ensures r.history == db.history + [HistoryRecord(db.nextHistoryId, walletId, occurredAt, amount, description, kind)]
    ensures r == db.(history := r.history, nextHistoryId := db.nextHistoryId + 1)
  {
    db.(history := db.history + [HistoryRecord(db.nextHistoryId, walletId, occurredAt, amount, description, kind)],
        nextHistoryId := db.nextHistoryId + 1)
  }

  /** `save` of a new outbox row; the id comes from the table's sequence. */
  function SaveOutbox(db: Db, aggregateType: string, aggregateId: string, kind: string, payload: WalletCudEvent): (r: Db)
    ensures r.outbox == db.outbox + [EventMessageOut(db.nextOutboxId, aggregateType, aggregateId, kind, payload)]
    ensures r == db.(outbox := r.outbox, nextOutboxId := db.nextOutboxId + 1)
  {
    db.(outbox := db.outbox + [EventMessageOut(db.nextOutboxId, aggregateType, aggregateId, kind, payload)],
        nextOutboxId := db.nextOutboxId + 1)
  }

  /** `save` of an `EventLog` row marking an event id as processed. */
  function SaveEventLog(db: Db, eventId: string, receivedAt: Time): (r: Db)
    ensures r.eventLog.Keys == db.eventLog.Keys + {eventId} && r.eventLog[eventId] == receivedAt
    ensures forall k :: k in db.eventLog && k != eventId ==> r.eventLog[k] == db.eventLog[k]
    ensures r == db.(eventLog := r.eventLog)
  {
    db.(eventLog := db.eventLog[eventId := receivedAt])
  }

  // ----- WalletPaymentRepository

  /** `save` of a new payment row; the id comes from the table's sequence. */
  function SavePayment(db: Db, paymentId: string, walletId: Uuid, status: string, amount: Long,
                       description: string, createdAt: Time, currency: string): (r: Db)
    ensures r.payments == db.payments +
              [WalletPayment(db.nextPaymentId, paymentId, walletId, status, amount, description, createdAt, currency)]
    ensures r == db.(payments := r.payments, nextPaymentId := db.nextPaymentId + 1)
  {
    db.(payments := db.payments +
          [WalletPayment(db.nextPaymentId, paymentId, walletId, status, amount, description, createdAt, currency)],
        nextPaymentId := db.nextPaymentId + 1)
  }

  /** `findByWalletId`: the wallet's payments, in table order. */
  function FindByWalletId(payments: seq<WalletPayment>, walletId: Uuid): (r: seq<WalletPayment>)
    ensures forall p :: p in r <==> p in payments && p.walletId == walletId
  {
    Seqs.Filter(payments, (p: WalletPayment) => p.walletId == walletId)
  }

  /** `findByPaymentId`: the payment with that id, None when there is none;
      a single-result query that matches several rows is an error
      (`paymentId` carries no unique constraint). */
  function FindByPaymentId(payments: seq<WalletPayment>, paymentId: string): (r: Result<Option<WalletPayment>, DbError>)
    ensures r == Success(None) <==> forall p :: p in payments ==> p.paymentId != paymentId
    ensures r.Success? && r.value.Some? ==> r.value.value in payments && r.value.value.paymentId == paymentId
    ensures r.Success? && r.value.Some? ==> forall p :: p in payments && p.paymentId == paymentId ==> p == r.value.value
  {
    var matching := Seqs.Filter(payments, (p: WalletPayment) => p.paymentId == paymentId);
    if |matching| == 0 then Success(None)
    else if |matching| == 1 then
      assert matching[0] in matching;
      Success(Some(matching[0]))
    else Failure(NonUniqueResult(|matching|))
  }

  /** `updatePaymentStatus`: sets `status` on every row with that paymentId. */
  function UpdatePaymentStatus(payments: seq<WalletPayment>, paymentId: string, status: string): (r: seq<WalletPayment>)
    ensures |r| == |payments|
    ensures forall i :: 0 <= i < |r| && payments[i].paymentId == paymentId ==> r[i] == payments[i].(status := status)
    ensures forall i :: 0 <= i < |r| && payments[i].paymentId != paymentId ==> r[i] == payments[i]
  {
    if payments == [] then []
    else
      var p := payments[0];
      [if p.paymentId == paymentId then p.(status := status) else p] + UpdatePaymentStatus(payments[1..], paymentId, status)
  }

  // ----- EventMessageOutRepositoryCustomImpl

  /** The smallest id in a non-empty outbox. */
  function MinId(outbox: seq<EventMessageOut>): (m: nat)
    requires outbox != []
    ensures exists i :: 0 <= i < |outbox| && outbox[i].id == m
    ensures forall i :: 0 <= i < |outbox| ==> m <= outbox[i].id
  {
    if |outbox| == 1 then outbox[0].id
    else
      var rest := MinId(outbox[1..]);
      if outbox[0].id <= rest then outbox[0].id else rest
  }

  /** `DELETE ... WHERE id = (SELECT id ... ORDER BY id LIMIT 1) RETURNING ...`:
      the rows deleted and the rows left. */
  function DeleteLowest(outbox: seq<EventMessageOut>): (r: (seq<EventMessageOut>, seq<EventMessageOut>))
    ensures outbox == [] ==> r == ([], [])
    ensures outbox != [] ==> forall row :: row in r.0 ==> row in outbox && row.id == MinId(outbox)
  {
    if outbox == [] then ([], [])
    else
      var m := MinId(outbox);
      (Seqs.Filter(outbox, (row: EventMessageOut) => row.id == m),
       Seqs.Filter(outbox, (row: EventMessageOut) => row.id != m))
  }

  /** What the relay reads from a deleted row: id, type and payload. */
  function ToMessage(row: EventMessageOut): (m: EventMessage)
    ensures m.id == row.id && m.kind == row.kind && m.payload == row.payload
  {
    EventMessage(row.id, row.kind, row.payload)
  }

  /** `deleteAndGetFirstEventLog`: one deleted row is returned as a message,
      none gives None, more than one is an IllegalStateException, which rolls
      the deletion back. */
  function DeleteAndGetFirstEventLog(db: Db): (r: (Result<Option<EventMessage>, DbError>, Db))
    ensures db.outbox == [] ==> r == (Success(None), db)
    ensures r.0.Failure? || r.0.value.None? ==> r.1 == db
    ensures r.0.Success? && r.0.value.Some? ==>
              var m := r.0.value.value;
              && r.1 == db.(outbox := r.1.outbox)
              && (exists row :: row in db.outbox && ToMessage(row) == m)
              && (forall i :: 0 <= i < |db.outbox| ==> m.id <= db.outbox[i].id)
              && (forall row :: row in r.1.outbox <==> row in db.outbox && row.id != m.id)
  {
    var split := DeleteLowest(db.outbox);
    var deleted := split.0;
    var rest := split.1;
    if |deleted| == 1 then
      assert deleted[0] in deleted;
      (Success(Some(ToMessage(deleted[0]))), db.(outbox := rest))
    else if |deleted| == 0 then (Success(None), db)
    else (Failure(TooManyDeletedRows(|deleted|)), db)
  }

  lemma {:induction false} FilterIdsOfOrdered(outbox: seq<EventMessageOut>, next: nat)
    requires outbox != [] && OutboxOrdered(outbox, next)
    ensures Seqs.Filter(outbox, (row: EventMessageOut) => row.id == outbox[0].id) == [outbox[0]]
    ensures Seqs.Filter(outbox, (row: EventMessageOut) => row.id != outbox[0].id) == outbox[1..]
  {
    var m := outbox[0].id;
    var tail := outbox[1..];
    assert forall i :: 0 <= i < |tail| ==> tail[i].id > m;
    FilterNoneMatch(tail, m);
    FilterAllMatch(tail, m);
  }

  lemma {:induction false} FilterNoneMatch(rows: seq<EventMessageOut>, m: nat)
    requires forall i :: 0 <= i < |rows| ==> rows[i].id > m
    ensures Seqs.Filter(rows, (row: EventMessageOut) => row.id == m) == []
  {
    if rows != [] {
      FilterNoneMatch(rows[1..], m);
    }
  }

  lemma {:induction false} FilterAllMatch(rows: seq<EventMessageOut>, m: nat)
    requires forall i :: 0 <= i < |rows| ==> rows[i].id > m
    ensures Seqs.Filter(rows, (row: EventMessageOut) => row.id != m) == rows
  {
    if rows != [] {
      FilterAllMatch(rows[1..], m);
    }
  }

  /** In an outbox with sequence ids the lowest id belongs to the oldest row
      and to no other: the deletion removes exactly the head row, returns its
      id, type and payload, and the IllegalStateException path is never taken. */
  lemma DeleteAndGetFirstTakesHead(db: Db)
    requires ValidDb(db)
    ensures db.outbox == [] ==> DeleteAndGetFirstEventLog(db) == (Success(None), db)
    ensures db.outbox != [] ==>
              DeleteAndGetFirstEventLog(db) == (Success(Some(ToMessage(db.outbox[0]))), db.(outbox := db.outbox[1..]))
  {
    if db.outbox != [] {
      assert MinId(db.outbox) == db.outbox[0].id;
      FilterIdsOfOrdered(db.outbox, db.nextOutboxId);
    }
  }


  // ----- integrity is kept by every write

  lemma SaveWalletKeepsValid(db: Db, w: WalletEntity)
    requires ValidDb(db) && w.id.Some?
    ensures SaveWallet(db, w).Success? ==> ValidDb(SaveWallet(db, w).value)
  {
  }

  lemma AdjustAmountKeepsValid(db: Db, walletId: Uuid, delta: int)
    requires ValidDb(db)
    ensures AdjustAmount(db, walletId, delta).Success? ==> ValidDb(AdjustAmount(db, walletId, delta).value)
  {
  }

  lemma SaveHistoryKeepsValid(db: Db, walletId: Uuid, amount: Long, description: string, occurredAt: Time, kind: ChangeType)
    requires ValidDb(db)
    ensures ValidDb(SaveHistory(db, walletId, amount, description, occurredAt, kind))
  {
  }

  lemma SaveOutboxKeepsValid(db: Db, aggregateType: string, aggregateId: string, kind: string, payload: WalletCudEvent)
    requires ValidDb(db)
    ensures ValidDb(SaveOutbox(db, aggregateType, aggregateId, kind, payload))
  {
  }

  lemma SavePaymentKeepsValid(db: Db, paymentId: string, walletId: Uuid, status: string, amount: Long,
                              description: string, createdAt: Time, currency: string)
    requires ValidDb(db)
    ensures ValidDb(SavePayment(db, paymentId, walletId, status, amount, description, createdAt, currency))
  {
  }

  lemma UpdatePaymentStatusKeepsValid(db: Db, paymentId: string, status: string)
    requires ValidDb(db)
    ensures ValidDb(db.(payments := UpdatePaymentStatus(db.payments, paymentId, status)))
  {
  }

  lemma DeleteAndGetFirstKeepsValid(db: Db)
    requires ValidDb(db)
    ensures ValidDb(DeleteAndGetFirstEventLog(db).1)
  {
    DeleteAndGetFirstTakesHead(db);
  }
}
