/** Row shapes of the wallet service's tables and of the events it stores,
    with the identity rules (`equals` / `hashCode`) the source gives its
    wallet entity and its outbox message. */
module Entities {
  import opened Wrappers
  import opened Jvm
  import opened Uuids

  /** A row of `wallet`. The id is nullable until it is assigned; the other
      columns are NOT NULL. */
  datatype WalletEntity = WalletEntity(
    id: Option<Uuid>,
    amount: Long,
    userId: string,
    blocked: bool,
    createdAt: Time)

  /** Direction of a balance change, in history rows and in wallet events. */
  datatype ChangeType = Withdrawal | Replenishment

  /** A row of `wallet_history`. */
  datatype HistoryRecord = HistoryRecord(
    id: nat,
    walletId: Uuid,
    occurredAt: Time,
    amount: Long,
    description: string,
    kind: ChangeType)

  /** A row of `wallet_payment`. */
  datatype WalletPayment = WalletPayment(
    id: nat,
    paymentId: string,
    walletId: Uuid,
    status: string,
    amount: Long,
    description: string,
    createdAt: Time,
    currency: string)

  /** The change a `WalletCudEvent` carries. */
  datatype WalletChange =
    | WalletCreated(createdAt: Time, balance: Long)
    | WalletBalanceChange(amount: Long, kind: ChangeType)

  /** A wallet domain event (`WalletCudEvent`); its protobuf encoding is not
      modelled, the outbox stores the event itself. */
  datatype WalletCudEvent = WalletCudEvent(
    eventId: string,
    createdAt: Time,
    walletId: string,
    userId: string,
    change: WalletChange)

  /** A row of `event_message_out`, the transactional outbox. */
  datatype EventMessageOut = EventMessageOut(
    id: nat,
    aggregateType: string,
    aggregateId: string,
    kind: string,
    payload: WalletCudEvent)

  /** What the relay reads back from a deleted outbox row. */
  datatype EventMessage = EventMessage(id: nat, kind: string, payload: WalletCudEvent)

  /** The outcome a `WalletReplyEvent` reports for a credit reservation. */
  datatype ReplyPayload =
    | WalletUserNotFound(userId: string, trxId: string)
    | WalletCreditReserved(userId: string, trxId: string, reservedAmount: Long, balance: Long)
    | WalletCreditLimitExceeded(userId: string, trxId: string, balance: Long)

  /** A reply on the wallet command response topic. */
  datatype WalletReplyEvent = WalletReplyEvent(
    eventId: string,
    createdAt: Time,
    userId: string,
    payload: ReplyPayload)

  /** A Kafka producer record: the partitioning key and the value. */
  datatype ProducerRecord<V> = ProducerRecord(key: string, value: V)

  /** The argument of `equals(other: Any?)`: null, an instance of the same
      class, or an object of another class (a Hibernate proxy subclass among
      them, since `javaClass` differs for it). */
  datatype Other<T> = Null | Instance(value: T) | OfOtherClass

  // ----- WalletEntity identity

  /** `WalletEntity.equals`: same class and equal (possibly null) ids; every
      other column is ignored. */
  predicate WalletEquals(self: WalletEntity, other: Other<WalletEntity>) {
    other.Instance? && self.id == other.value.id
  }

  /** `WalletEntity.hashCode`: the UUID's hash, or 0 for a null id. */
  function WalletHashCode(self: WalletEntity): Int {
    match self.id
    case Some(u) => Uuids.Hash(u)
    case None => 0
  }

  lemma WalletEqualsIsEquivalence(a: WalletEntity, b: WalletEntity, c: WalletEntity)
    ensures WalletEquals(a, Instance(a))
    ensures WalletEquals(a, Instance(b)) <==> WalletEquals(b, Instance(a))
    ensures WalletEquals(a, Instance(b)) && WalletEquals(b, Instance(c)) ==> WalletEquals(a, Instance(c))
  {
  }

  lemma WalletEqualsComparesIdOnly(a: WalletEntity, b: WalletEntity)
    ensures WalletEquals(a, Instance(b)) <==> a.id == b.id
    ensures !WalletEquals(a, Null) && !WalletEquals(a, OfOtherClass)
  {
  }

  lemma WalletHashAgreesWithEquals(a: WalletEntity, b: WalletEntity)
    requires WalletEquals(a, Instance(b))
    ensures WalletHashCode(a) == WalletHashCode(b)
  {
  }

  // ----- EventMessage identity

  /** `EventMessage.equals`: same class, same id and same type; the payload is
      ignored. */
  predicate MessageEquals(self: EventMessage, other: Other<EventMessage>) {
    other.Instance? && self.id == other.value.id && self.kind == other.value.kind
  }

  /** `EventMessage.hashCode`: `31 * id.hashCode() + type.hashCode()` in 32-bit
      arithmetic. */
  function MessageHashCode(self: EventMessage): Int {
    WrapInt(31 * LongHash(WrapLong(self.id)) + StringHash(self.kind))
  }

  lemma MessageEqualsIsEquivalence(a: EventMessage, b: EventMessage, c: EventMessage)
    ensures MessageEquals(a, Instance(a))
    ensures MessageEquals(a, Instance(b)) <==> MessageEquals(b, Instance(a))
    ensures MessageEquals(a, Instance(b)) && MessageEquals(b, Instance(c)) ==> MessageEquals(a, Instance(c))
  {
  }

  lemma MessageEqualsIgnoresPayload(a: EventMessage, b: EventMessage)
    ensures MessageEquals(a, Instance(b)) <==> a.id == b.id && a.kind == b.kind
    ensures !MessageEquals(a, Null) && !MessageEquals(a, OfOtherClass)
  {
  }

  lemma MessageHashAgreesWithEquals(a: EventMessage, b: EventMessage)
    requires MessageEquals(a, Instance(b))
    ensures MessageHashCode(a) == MessageHashCode(b)
  {
  }
}
