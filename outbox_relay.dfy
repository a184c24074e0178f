// The outbox relay: `EventOutMessagePublisher.publishWalletEvent`, which the
// scheduled poller calls over and over. Each call runs in one transaction:
// it deletes the oldest outbox row and hands its event to the Kafka producer,
// keyed by the wallet id so that the events of one wallet share a partition.

module OutboxRelay {
  import opened Wrappers
  import opened Entities
  import opened Tables
  import Ledger

  /** What becomes of `kafkaTemplate.send`: the record is accepted, the call
      throws (the transaction then rolls the deletion back), or the call
      returns and the asynchronous send fails later, which nobody observes. */
  datatype Delivery = Delivered | SendThrew | LostInFlight

  datatype RelayError = DeleteFailed(cause: DbError) | SendFailed

  /** The record sent for an outbox message. */
  function RecordOf(m: EventMessage): (r: ProducerRecord<WalletCudEvent>)
    ensures r.key == m.payload.walletId && r.value == m.payload
  {
    ProducerRecord(m.payload.walletId, m.payload)
  }

  /** Every record is the one sent for some row of `rows`. */
  predicate BuiltFrom(records: seq<ProducerRecord<WalletCudEvent>>, rows: seq<EventMessageOut>) {
    forall rec :: rec in records ==> exists row :: row in rows && rec == RecordOf(ToMessage(row))
  }

  lemma BuiltFromAppend(a: seq<ProducerRecord<WalletCudEvent>>, b: seq<ProducerRecord<WalletCudEvent>>,
                        rows: seq<EventMessageOut>, later: seq<EventMessageOut>)
    requires BuiltFrom(a, rows) && BuiltFrom(b, later)
    requires forall row :: row in later ==> row in rows
    ensures BuiltFrom(a + b, rows)
  {
    forall rec | rec in a + b
      ensures exists row :: row in rows && rec == RecordOf(ToMessage(row))
    {
      if rec !in a {
        var row :| row in later && rec == RecordOf(ToMessage(row));
        assert row in rows;
      }
    }
  }

  /** One `publishWalletEvent` call: the tables afterwards, the records the
      producer accepted, and whether the call completed. */
  function PublishWalletEvent(db: Db, delivery: Delivery): (r: (Db, seq<ProducerRecord<WalletCudEvent>>, Outcome<RelayError>))
    ensures db.outbox == [] ==> r == (db, [], Pass)
    ensures r.2.Fail? ==> r.0 == db && r.1 == []
    ensures r.1 != [] ==> delivery == Delivered && r.2 == Pass
    ensures |r.1| <= 1
    ensures forall row :: row in r.0.outbox ==> row in db.outbox
    ensures r.0 == db.(outbox := r.0.outbox)
    ensures BuiltFrom(r.1, db.outbox)
  {
    var taken := DeleteAndGetFirstEventLog(db);
    var deleted := taken.0;
    var after := taken.1;
    if deleted.Failure? then (db, [], Fail(DeleteFailed(deleted.error)))
    else if deleted.value.None? then (db, [], Pass)
    else
      match delivery
      case Delivered => (after, [RecordOf(deleted.value.value)], Pass)
      case SendThrew => (db, [], Fail(SendFailed))
      case LostInFlight => (after, [], Pass)
  }

  /** The relay against the store: the deletion, then the send; a send that
      throws restores the tables as they were when the transaction began. */
  method PublishWalletEventOn(store: Ledger.Store, delivery: Delivery) returns (r: Outcome<RelayError>)
    modifies store
    ensures var (after, sent, outcome) := PublishWalletEvent(old(store.State()), delivery);
            store.State() == after && store.published == old(store.published) + sent && r == outcome
    ensures store.replies == old(store.replies)
  {
    var snapshot := store.State();
    var deleted := store.DeleteAndGetFirstEventLog();
    if deleted.Failure? {
      return Fail(DeleteFailed(deleted.error));
    }
    if deleted.value.None? {
      return Pass;
    }
    match delivery {
      case Delivered =>
        store.Publish(RecordOf(deleted.value.value));
        r := Pass;
      case SendThrew =>
        store.Rollback(snapshot);
        r := Fail(SendFailed);
      case LostInFlight =>
        r := Pass;
    }
  }

  /** An empty outbox: the call returns at once and changes nothing. */
  lemma EmptyOutboxIsNoOp(db: Db, delivery: Delivery)
    requires ValidDb(db) && db.outbox == []
    ensures PublishWalletEvent(db, delivery) == (db, [], Pass)
  {
    DeleteAndGetFirstTakesHead(db);
  }

  /** With rows pending, an accepted send publishes the oldest row's event,
      keyed by its wallet id, and removes exactly that row. */
  lemma PublishesOldestRow(db: Db)
    requires ValidDb(db) && db.outbox != []
    ensures var (after, sent, outcome) := PublishWalletEvent(db, Delivered);
            && outcome == Pass
            && after == db.(outbox := db.outbox[1..])
            && sent == [ProducerRecord(db.outbox[0].payload.walletId, db.outbox[0].payload)]
  {
    DeleteAndGetFirstTakesHead(db);
  }

  /** A send that throws leaves the row at the head of the outbox, so the
      next poll sends the same event again. */
  lemma ThrownSendIsRetried(db: Db)
    requires ValidDb(db) && db.outbox != []
    ensures PublishWalletEvent(db, SendThrew) == (db, [], Fail(SendFailed))
  {
    DeleteAndGetFirstTakesHead(db);
  }

  /** A send that fails after the call returned loses the event: the row is
      gone and no record was accepted. */
  lemma LateSendFailureLosesEvent(db: Db)
    requires ValidDb(db) && db.outbox != []
    ensures var (after, sent, outcome) := PublishWalletEvent(db, LostInFlight);
            && outcome == Pass && sent == []
            && db.outbox[0] !in after.outbox
  {
    DeleteAndGetFirstTakesHead(db);
    var rest := db.outbox[1..];
    forall i | 0 <= i < |rest|
      ensures rest[i] != db.outbox[0]
    {
      assert rest[i] == db.outbox[i + 1];
    }
  }

  /** The relay keeps the outbox's integrity. */
  lemma PublishKeepsValid(db: Db, delivery: Delivery)
    requires ValidDb(db)
    ensures ValidDb(PublishWalletEvent(db, delivery).0)
  {
    DeleteAndGetFirstTakesHead(db);
    DeleteAndGetFirstKeepsValid(db);
  }

  /** Successive polls, one delivery outcome per call. */
  function Relay(db: Db, deliveries: seq<Delivery>): (r: (Db, seq<ProducerRecord<WalletCudEvent>>))
    ensures |r.1| <= |deliveries|
    ensures forall row :: row in r.0.outbox ==> row in db.outbox
    ensures r.0 == db.(outbox := r.0.outbox)
    ensures BuiltFrom(r.1, db.outbox)
    decreases |deliveries|
  {
    if deliveries == [] then (db, [])
    else
      var step := PublishWalletEvent(db, deliveries[0]);
      var rest := Relay(step.0, deliveries[1..]);
      BuiltFromAppend(step.1, rest.1, db.outbox, step.0.outbox);
      (rest.0, step.1 + rest.1)
  }

  /** The records for a run of outbox rows, in row order. */
  function Records(rows: seq<EventMessageOut>): (r: seq<ProducerRecord<WalletCudEvent>>)
    ensures |r| == |rows|
    ensures forall i :: 0 <= i < |rows| ==> r[i] == ProducerRecord(rows[i].payload.walletId, rows[i].payload)
  {
    seq(|rows|, i requires 0 <= i < |rows| => ProducerRecord(rows[i].payload.walletId, rows[i].payload))
  }

  predicate AllDelivered(deliveries: seq<Delivery>) {
    forall i :: 0 <= i < |deliveries| ==> deliveries[i] == Delivered
  }

  lemma RecordsOfHeadAndTail(rows: seq<EventMessageOut>, n: nat)
    requires 1 <= n <= |rows|
    ensures Records(rows[..n]) == [ProducerRecord(rows[0].payload.walletId, rows[0].payload)] + Records(rows[1..][..n - 1])
  {
    var tail := rows[1..][..n - 1];
    assert forall i :: 0 <= i < n - 1 ==> tail[i] == rows[i + 1];
  }

  lemma AllDeliveredTail(deliveries: seq<Delivery>)
    requires deliveries != [] && AllDelivered(deliveries)
    ensures deliveries[0] == Delivered && AllDelivered(deliveries[1..])
  {
    var tail := deliveries[1..];
    assert forall i :: 0 <= i < |tail| ==> tail[i] == deliveries[i + 1];
  }

  /** While every send is accepted, n polls publish the n oldest rows in id
      order, each exactly once, and leave the rest pending. */
  lemma {:induction false} RelayIsFifo(db: Db, deliveries: seq<Delivery>)
    requires ValidDb(db) && AllDelivered(deliveries) && |deliveries| <= |db.outbox|
    ensures var n := |deliveries|;
            Relay(db, deliveries) == (db.(outbox := db.outbox[n..]), Records(db.outbox[..n]))
    decreases |deliveries|
  {
    if deliveries != [] {
      var n := |deliveries|;
      AllDeliveredTail(deliveries);
      PublishesOldestRow(db);
      PublishKeepsValid(db, Delivered);
      var step := PublishWalletEvent(db, Delivered);
      var next := db.(outbox := db.outbox[1..]);
      assert step.0 == next;
      RelayIsFifo(next, deliveries[1..]);
      var rest := Relay(next, deliveries[1..]);
      assert rest.0 == db.(outbox := db.outbox[n..]);
      RecordsOfHeadAndTail(db.outbox, n);
      assert step.1 + rest.1 == Records(db.outbox[..n]);
    }
  }

  /** Polls over an empty outbox publish nothing, whatever the producer does. */
  lemma {:induction false} IdleRelayPublishesNothing(db: Db, deliveries: seq<Delivery>)
    requires ValidDb(db) && db.outbox == []
    ensures Relay(db, deliveries) == (db, [])
  {
    if deliveries != [] {
      EmptyOutboxIsNoOp(db, deliveries[0]);
      IdleRelayPublishesNothing(db, deliveries[1..]);
      assert [] + Relay(db, deliveries[1..]).1 == [];
    }
  }
}
