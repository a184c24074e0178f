# chest wallet service — a Dafny model

This project models the core of **chest**, a Kotlin/Spring wallet service. Each user owns one wallet, a signed 64-bit balance. The service:

- records payments against a wallet, credits the wallet when a payment succeeds and debits it on a refund, driven by payment events read from Kafka;
- reserves credit on request from the wallet command topic and answers every command on a response topic;
- writes each balance change to `wallet_history` and serves that history as keyset-paginated pages;
- publishes wallet events through a transactional outbox (`event_message_out`), which a scheduled relay drains one row at a time.

The model is in two layers:

- **Values and functions.** `Tables` holds the five tables (`wallet`, `wallet_history`, `event_message_out`, `wallet_payment`, `event_log`) as one value, `Db`, together with the repository operations on it. `WalletLedger`, `PaymentHandling`, `CreditReservation`, `HistoryPagination` and `OutboxRelay` state each service operation as a function from the tables before the call to the tables after it, or to the exception it throws.
- **Code as it runs.** `Ledger.Store` is a class whose fields are those tables plus the two Kafka topics the service sends to. `WalletService`, `PaymentHandler`, `ReserveCreditHandler`, the two listener modules and `OutboxRelay.PublishWalletEventOn` are methods that write to the store step by step, with loops where the source loops. Each method is proved to leave the store exactly as its function says, or as it was when the transaction rolls back.

`Dispatch` models what both Kafka listeners do before any handler runs: decode the batch, route each event to the first handler bean that accepts it, and group the events by route (Kotlin's `groupBy`, keys in first-occurrence order). `Entities` holds the rows, the events and the `equals`/`hashCode` of the wallet entity and the outbox message. `Jvm` and `Uuids` hold the JVM facts the code relies on: 64- and 32-bit wrap-around, `LocalDateTime` epoch seconds, and the text form and hash of `java.util.UUID`.

Inputs the service takes from the outside world are parameters:

- A `Fresh` value (`WalletLedger.Fresh`) stands for the random UUIDs and the clock reading one call draws.
- A `parse` function stands for the protobuf `parseFrom`.
- A `Delivery` value (`OutboxRelay.Delivery`) stands for what becomes of a Kafka send.

Several behaviours of the code as written are modelled as they are and stated as lemmas:

- **Credit path.** The credit path has no check (`WalletLedger.NegativeCreditOverdraws`). It writes history and an outbox row even for a missing wallet (`WalletLedger.CreditToMissingWalletLeavesTraces`).
- **Dedup.** The idempotent payment handler deduplicates by event id only (`PaymentHandling.DistinctIdsCreditTwice`). The legacy handler does not deduplicate at all (`PaymentHandling.LegacyAppliesDuplicateTwice`). Credit reservations are not deduplicated either (`CreditReservation.RedeliveryDebitsTwice`).
- **First history page.** It ignores the wallet id (`HistoryPagination.FirstPageIgnoresWalletId`).
- **Next history page.** A page whose token carries a bound fails on the missing `createdAt` attribute (`HistoryPagination.NextPageOutcome`). Its cursor compares the `walletId` column with the token id, so the token's own wallet never appears (`HistoryPagination.NextPageSkipsTokenWallet`).
- **Balance-change events.** They carry an empty user id. Inside the builder, `this.userId = userId` assigns the builder's own property to itself, since neither debit nor credit has a local `userId` (`WalletLedger.DecreaseWalletAmount`, `WalletLedger.IncreaseWalletAmount`).
- **Outbox relay.** A send that fails after the call returns loses the event (`OutboxRelay.LateSendFailureLosesEvent`).

## Model

| member | source | states |
|---|---|---|
| Jvm.WrapLong | src/main/kotlin/dev/crashteam/chest/service/WalletService.kt:87 | the 64-bit subtraction of the debit check is exact inside the Long range and otherwise congruent to it modulo 2^64 |
| Jvm.WrapInt | src/main/kotlin/dev/crashteam/chest/repository/WalletHistoryRepositoryCustomImpl.kt:50 | `limit + 1` is exact inside the Int range and otherwise congruent to it modulo 2^32 |
| Jvm.WrappedDifferenceNonNegative | src/main/kotlin/dev/crashteam/chest/service/WalletService.kt:87 | for a positive balance, the wrapped difference is non-negative exactly when the true difference is a non-negative Long |
| Jvm.SignedInt | src/main/kotlin/dev/crashteam/chest/repository/entity/WalletEntity.kt:38-40 | a 32-bit pattern reads as its two's-complement Int: unchanged up to Int.MAX_VALUE, less 2^32 above it |
| Jvm.EpochSecond | src/main/kotlin/dev/crashteam/chest/repository/WalletHistoryRepositoryCustomImpl.kt:102 | the epoch second of a time is the whole second containing it |
| Jvm.OfEpochSecond | src/main/kotlin/dev/crashteam/chest/handler/payment/PaymentChangeEventHandler.kt:42-46 | `LocalDateTime.ofEpochSecond` succeeds exactly for a nano-of-second in 0..999,999,999 and an epoch second whose date `LocalDateTime` can hold (-31557014135596800..31556889832780799); a bad nano-of-second is the error reported first; the result lies in the given second |
| Jvm.OfInstantSecond | src/main/kotlin/dev/crashteam/chest/repository/WalletHistoryRepositoryCustomImpl.kt:102 | `LocalDateTime.ofInstant(Instant.ofEpochSecond(s), UTC)` succeeds exactly for a second whose date `LocalDateTime` can hold; a second outside the wider `Instant` range fails on `Instant` first; the result is the start of that second |
| Jvm.StringHash | src/main/kotlin/dev/crashteam/chest/repository/entity/EventMessageOut.kt:40-44 | `String.hashCode` is congruent modulo 2^32 to the polynomial s[0]*31^(n-1) + ... + s[n-1] over unbounded integers (`Jvm.PolyHash`) |
| Jvm.LongHash | src/main/kotlin/dev/crashteam/chest/repository/entity/EventMessageOut.kt:40-44 | `Long.hashCode`, the exclusive or of the two 32-bit halves; it carries no contract of its own, see Left out |
| Uuids.ToString | src/main/kotlin/dev/crashteam/chest/service/WalletService.kt:62 | the canonical text of a UUID has 36 characters; `Uuids.FromStringOfToString` reads it back |
| Uuids.Hex | src/main/kotlin/dev/crashteam/chest/service/WalletService.kt:62 | n hexadecimal digits; `Uuids.ParseHexOfHex` reads them back |
| Uuids.Hash | src/main/kotlin/dev/crashteam/chest/repository/entity/WalletEntity.kt:38-40 | `UUID.hashCode`, the exclusive or of the four 32-bit words; it carries no contract of its own, see Left out |
| Uuids.ParseHex | src/main/kotlin/dev/crashteam/chest/repository/WalletHistoryRepositoryCustomImpl.kt:76 | the value of n hexadecimal digits is below 16^n |
| Uuids.FromStringOfToString | src/main/kotlin/dev/crashteam/chest/repository/WalletHistoryRepositoryCustomImpl.kt:76 | `UUID.fromString` reads the canonical text of a UUID back as that UUID |
| Uuids.ToStringInjective | src/main/kotlin/dev/crashteam/chest/service/WalletService.kt:62 | two UUIDs with the same text (the outbox aggregate id) are the same UUID |
| Uuids.ParseHexOfHex | src/main/kotlin/dev/crashteam/chest/repository/WalletHistoryRepositoryCustomImpl.kt:76 | hexadecimal digits read back as the value they were written from |
| Uuids.FromString | src/main/kotlin/dev/crashteam/chest/repository/WalletHistoryRepositoryCustomImpl.kt:76 | only a 36-character string with dashes at positions 8, 13, 18 and 23 is accepted |
| Entities.WalletEqualsIsEquivalence | src/main/kotlin/dev/crashteam/chest/repository/entity/WalletEntity.kt:27-36 | `WalletEntity.equals` is reflexive, symmetric and transitive |
| Entities.WalletEqualsComparesIdOnly | src/main/kotlin/dev/crashteam/chest/repository/entity/WalletEntity.kt:27-36 | two wallets are equal exactly when their ids are, whatever their other columns; a wallet never equals null or an object of another class |
| Entities.WalletHashAgreesWithEquals | src/main/kotlin/dev/crashteam/chest/repository/entity/WalletEntity.kt:38-40 | equal wallets have equal hash codes (the UUID hash, 0 for a null id) |
| Entities.WalletEquals | src/main/kotlin/dev/crashteam/chest/repository/entity/WalletEntity.kt:27-36 | `WalletEntity.equals`; `Entities.WalletEqualsIsEquivalence` and `Entities.WalletEqualsComparesIdOnly` state what it means |
| Entities.WalletHashCode | src/main/kotlin/dev/crashteam/chest/repository/entity/WalletEntity.kt:38-40 | `WalletEntity.hashCode`; `Entities.WalletHashAgreesWithEquals` states its agreement with `equals` |
| Entities.MessageEqualsIsEquivalence | src/main/kotlin/dev/crashteam/chest/repository/entity/EventMessageOut.kt:28-38 | `EventMessage.equals` is reflexive, symmetric and transitive |
| Entities.MessageEqualsIgnoresPayload | src/main/kotlin/dev/crashteam/chest/repository/entity/EventMessageOut.kt:32-37 | two messages are equal exactly when id and type are; the payload is ignored; never equal to null or another class |
| Entities.MessageHashAgreesWithEquals | src/main/kotlin/dev/crashteam/chest/repository/entity/EventMessageOut.kt:40-44 | equal messages have equal hash codes, since `31 * id.hashCode() + type.hashCode()` reads only id and type |
| Entities.MessageEquals | src/main/kotlin/dev/crashteam/chest/repository/entity/EventMessageOut.kt:28-38 | `EventMessage.equals`; `Entities.MessageEqualsIsEquivalence` and `Entities.MessageEqualsIgnoresPayload` state what it means |
| Entities.MessageHashCode | src/main/kotlin/dev/crashteam/chest/repository/entity/EventMessageOut.kt:40-44 | `EventMessage.hashCode`; `Entities.MessageHashAgreesWithEquals` states its agreement with `equals` |
| Tables.EmptyDbValid | src/main/kotlin/dev/crashteam/chest/repository/entity/WalletEntity.kt:8-10 | empty tables meet the integrity constraints: rows keyed by id, unique user ids, increasing outbox ids |
| Wrappers.Get | src/main/kotlin/dev/crashteam/chest/repository/WalletRepository.kt:23-25 | a lookup by key (`findById`, `findByWalletIdWithLock`, Kotlin `Map.get`) finds a value exactly when the key is present, and then the stored one |
| Tables.FindByUserId | src/main/kotlin/dev/crashteam/chest/repository/WalletRepository.kt:17 | finds a wallet exactly when the user owns one; it is that user's wallet, stored under its own id |
| Tables.FindByUserIdOfMember | src/main/kotlin/dev/crashteam/chest/repository/WalletRepository.kt:17 | a stored wallet is the one a lookup by its owner finds (the owner is unique) |
| Tables.FindById | src/main/kotlin/dev/crashteam/chest/service/WalletService.kt:79 | finds a wallet exactly when its id is a key of the table, and it is the row stored under that id |
| Tables.SaveWallet | src/main/kotlin/dev/crashteam/chest/repository/entity/WalletEntity.kt:8-10 | the save succeeds exactly when no other wallet has the same user (the unique index), and then upserts the row under its id and nothing else |
| Tables.AdjustAmount | src/main/kotlin/dev/crashteam/chest/repository/WalletRepository.kt:27-33 | a balance update changes only the row with that id, by exactly the delta; an absent id changes nothing; a result outside bigint fails |
| Tables.UpdateAmountWithdrawal | src/main/kotlin/dev/crashteam/chest/repository/WalletRepository.kt:27-29 | an absent id changes nothing; otherwise it fails exactly when balance - amount leaves bigint, and else only that row's balance drops by the amount |
| Tables.DepositAmount | src/main/kotlin/dev/crashteam/chest/repository/WalletRepository.kt:31-33 | an absent id changes nothing; otherwise it fails exactly when balance + amount leaves bigint, and else only that row's balance rises by the amount |
| Tables.SaveHistory | src/main/kotlin/dev/crashteam/chest/service/WalletService.kt:91-98 | appends one history row with the next sequence id; no other table changes |
| Tables.SaveOutbox | src/main/kotlin/dev/crashteam/chest/service/WalletService.kt:61-67 | appends one outbox row with the next sequence id; no other table changes |
| Tables.SaveEventLog | src/main/kotlin/dev/crashteam/chest/handler/payment/PaymentChangeEventHandler.kt:71-75 | the event log gains the event id, mapped to the receipt time, and keeps every other entry; no other table changes |
| Tables.DeleteAndGetFirstEventLog | src/main/kotlin/dev/crashteam/chest/repository/EventMessageOutRepositoryCustomImpl.kt:15-38 | an empty outbox gives null and no change; a failure or null leaves the tables as they were; a returned message is read from an outbox row with the smallest id, and exactly the rows with that id are removed, nothing else changing |
| Tables.SavePayment | src/main/kotlin/dev/crashteam/chest/service/WalletService.kt:197-206 | appends one payment row with the given fields and the next sequence id; no other table changes |
| Tables.FindByWalletId | src/main/kotlin/dev/crashteam/chest/repository/WalletPaymentRepository.kt:13 | returns exactly the payments whose walletId matches |
| Tables.FindByPaymentId | src/main/kotlin/dev/crashteam/chest/repository/WalletPaymentRepository.kt:15 | none exactly when no row has that paymentId; a found row has that paymentId and is the only such row |
| Tables.UpdatePaymentStatus | src/main/kotlin/dev/crashteam/chest/repository/WalletPaymentRepository.kt:17-19 | rows with that paymentId get the new status and keep every other field; other rows are unchanged; no row is added or removed |
| Tables.MinId | src/main/kotlin/dev/crashteam/chest/repository/EventMessageOutRepositoryCustomImpl.kt:19-23 | the id picked by `ORDER BY id LIMIT 1` is the smallest id in the outbox |
| Tables.DeleteAndGetFirstTakesHead | src/main/kotlin/dev/crashteam/chest/repository/EventMessageOutRepositoryCustomImpl.kt:15-38 | on an outbox with sequence ids, an empty outbox gives null and no change; otherwise exactly the oldest row is removed and returned, and the IllegalStateException path is never taken |
| Tables.SaveWalletKeepsValid | src/main/kotlin/dev/crashteam/chest/repository/entity/WalletEntity.kt:8-10 | a successful wallet save keeps rows keyed by id and user ids unique |
| Tables.AdjustAmountKeepsValid | src/main/kotlin/dev/crashteam/chest/repository/WalletRepository.kt:27-33 | balance updates keep the tables' integrity |
| Tables.SaveHistoryKeepsValid | src/main/kotlin/dev/crashteam/chest/service/WalletService.kt:98 | a history save keeps the tables' integrity |
| Tables.SaveOutboxKeepsValid | src/main/kotlin/dev/crashteam/chest/service/WalletService.kt:67 | an outbox save keeps outbox ids increasing and below the sequence |
| Tables.SavePaymentKeepsValid | src/main/kotlin/dev/crashteam/chest/service/WalletService.kt:206 | a payment save keeps the tables' integrity |
| Tables.UpdatePaymentStatusKeepsValid | src/main/kotlin/dev/crashteam/chest/repository/WalletPaymentRepository.kt:17-19 | the status update keeps the tables' integrity |
| Tables.DeleteAndGetFirstKeepsValid | src/main/kotlin/dev/crashteam/chest/repository/EventMessageOutRepositoryCustomImpl.kt:16-28 | the deletion keeps outbox ids increasing |
| Ledger.Store.constructor | src/main/kotlin/dev/crashteam/chest/repository/entity/WalletEntity.kt:8-10 | a fresh store holds empty tables that meet their constraints and has sent nothing |
| Ledger.Store.SaveWallet | src/main/kotlin/dev/crashteam/chest/service/WalletService.kt:42 | the store's tables become what `Tables.SaveWallet` gives, or stay as they were when the unique index refuses the row |
| Ledger.Store.UpdateAmountWithdrawalByWalletId | src/main/kotlin/dev/crashteam/chest/repository/WalletRepository.kt:27-29 | the wallets become what the subtracting update gives (no check of its own), or stay as they were on a bigint overflow |
| Ledger.Store.DepositAmountByWalletId | src/main/kotlin/dev/crashteam/chest/repository/WalletRepository.kt:31-33 | the wallets become what the adding update gives (no check of its own), or stay as they were on a bigint overflow |
| Ledger.Store.SaveHistory | src/main/kotlin/dev/crashteam/chest/service/WalletService.kt:98 | the history table gains the row `Tables.SaveHistory` describes; nothing else changes |
| Ledger.Store.SaveOutbox | src/main/kotlin/dev/crashteam/chest/service/WalletService.kt:67 | the outbox gains the row `Tables.SaveOutbox` describes; nothing else changes |
| Ledger.Store.SaveEventLog | src/main/kotlin/dev/crashteam/chest/handler/payment/PaymentChangeEventHandler.kt:75 | the event log gains the id; nothing else changes |
| Ledger.Store.SavePayment | src/main/kotlin/dev/crashteam/chest/service/WalletService.kt:206 | the payment table gains the row `Tables.SavePayment` describes; nothing else changes |
| Ledger.Store.UpdatePaymentStatus | src/main/kotlin/dev/crashteam/chest/repository/WalletPaymentRepository.kt:17-19 | only the payment statuses change, as `Tables.UpdatePaymentStatus` says |
| Ledger.Store.DeleteAndGetFirstEventLog | src/main/kotlin/dev/crashteam/chest/repository/EventMessageOutRepositoryCustomImpl.kt:15-38 | the outbox and the result are what `Tables.DeleteAndGetFirstEventLog` gives |
| Ledger.Store.SendReply | src/main/kotlin/dev/crashteam/chest/handler/wallet/WalletReserveCreditCommandHandler.kt:51 | a reply is appended to the command response topic; no table changes |
| Ledger.Store.Publish | src/main/kotlin/dev/crashteam/chest/outbox/EventOutMessagePublisher.kt:30 | a record is appended to the wallet event topic; no table changes |
| Ledger.Store.Rollback | src/main/kotlin/dev/crashteam/chest/handler/payment/PaymentChangeEventHandler.kt:24 | a rollback restores every table to the snapshot taken when the transaction began; sent messages stay sent |
| WalletLedger.CreateWallet | src/main/kotlin/dev/crashteam/chest/service/WalletService.kt:29-70 | fails with DuplicateWallet exactly when the user already owns a wallet; otherwise adds a wallet with balance 0, not blocked, that a lookup by the user then finds, and exactly one "WalletCreateEvent" outbox row for it; history, payments and event log are untouched |
| WalletLedger.DebitCheckMeansNoOverdraft | src/main/kotlin/dev/crashteam/chest/service/WalletService.kt:86-89 | the check lets a debit through exactly when the balance is positive and the exact difference is a non-negative Long |
| WalletLedger.InsufficientFunds | src/main/kotlin/dev/crashteam/chest/service/WalletService.kt:86-89 | the debit check in 64-bit arithmetic; `WalletLedger.DebitCheckMeansNoOverdraft` states exactly which debits it admits |
| WalletLedger.DecreaseWalletAmount | src/main/kotlin/dev/crashteam/chest/service/WalletService.kt:83-126 | fails with NotEnoughMoney exactly when the wallet is missing (balance read as 0) or the check refuses; otherwise lowers only that wallet by the amount, never below 0, appends one withdrawal history row and one "WalletBalanceChangeEvent" row carrying the balance read before the debit, and returns the lowered wallet |
| WalletLedger.IncreaseWalletAmount | src/main/kotlin/dev/crashteam/chest/service/WalletService.kt:129-167 | with no check, raises only that wallet by the amount (fails only on bigint overflow); appends one replenishment history row and one outbox row carrying the amount even when the wallet is missing, and then returns none |
| WalletLedger.AddWalletPayment | src/main/kotlin/dev/crashteam/chest/service/WalletService.kt:184-207 | never fails; the user owns a wallet afterwards, created only if missing; exactly one payment row with the given fields is appended against that wallet; history and event log are untouched; the outbox is unchanged for an existing wallet and gains exactly one `WalletCreateEvent` row for the created one |
| WalletLedger.CreateWalletKeepsValid | src/main/kotlin/dev/crashteam/chest/service/WalletService.kt:29-70 | creating a wallet keeps the tables' integrity |
| WalletLedger.DecreaseWalletAmountKeepsValid | src/main/kotlin/dev/crashteam/chest/service/WalletService.kt:83-126 | a debit keeps the tables' integrity |
| WalletLedger.IncreaseWalletAmountKeepsValid | src/main/kotlin/dev/crashteam/chest/service/WalletService.kt:129-167 | a credit keeps the tables' integrity |
| WalletLedger.AddWalletPaymentKeepsValid | src/main/kotlin/dev/crashteam/chest/service/WalletService.kt:184-207 | recording a payment keeps the tables' integrity |
| WalletLedger.AddWalletPaymentMovesNoBalance | src/main/kotlin/dev/crashteam/chest/service/WalletService.kt:193-206 | when the fresh wallet id is not already taken, recording a payment changes no existing wallet, and a wallet it creates holds 0 |
| WalletLedger.DebitThenCreditRestoresBalance | src/main/kotlin/dev/crashteam/chest/service/WalletService.kt:83-167 | a successful debit followed by a credit of the same amount restores the wallets; history holds both rows, oldest first |
| WalletLedger.CreditToMissingWalletLeavesTraces | src/main/kotlin/dev/crashteam/chest/service/WalletService.kt:131-166 | a credit to a missing wallet moves no balance, returns none, and still adds one history row and one outbox row |
| WalletLedger.NegativeCreditOverdraws | src/main/kotlin/dev/crashteam/chest/service/WalletService.kt:131 | the credit path has no check: crediting -1 to an empty wallet leaves it at -1 |
| WalletLedger.LedgerScenario | src/main/kotlin/dev/crashteam/chest/service/WalletService.kt:29-167 | create, credit 10000, debit 4000 "rent" gives balance 6000 and two history rows oldest first; a further debit of 20000 is refused with NotEnoughMoney |
| WalletService.CreateWallet | src/main/kotlin/dev/crashteam/chest/service/WalletService.kt:29-70 | the store ends as `WalletLedger.CreateWallet` says, or unchanged when it throws; nothing is sent |
| WalletService.DecreaseWalletAmount | src/main/kotlin/dev/crashteam/chest/service/WalletService.kt:83-126 | the store ends as `WalletLedger.DecreaseWalletAmount` says, or unchanged when it throws; nothing is sent |
| WalletService.IncreaseWalletAmount | src/main/kotlin/dev/crashteam/chest/service/WalletService.kt:129-167 | the store ends as `WalletLedger.IncreaseWalletAmount` says, or unchanged when it throws; nothing is sent |
| WalletService.AddWalletPayment | src/main/kotlin/dev/crashteam/chest/service/WalletService.kt:184-207 | the store ends as `WalletLedger.AddWalletPayment` says; nothing is sent |
| WalletService.FindWalletHistory | src/main/kotlin/dev/crashteam/chest/service/WalletService.kt:169-181 | a token selects the next-page query, which ignores wallet and bounds; without one the first-page query runs |
| HistoryPagination.Resolve | src/main/kotlin/dev/crashteam/chest/repository/WalletHistoryRepositoryCustomImpl.kt:128 | building the query fails exactly when a predicate names the missing `createdAt` attribute |
| HistoryPagination.OccurredAtFromPredicate | src/main/kotlin/dev/crashteam/chest/repository/WalletHistoryRepositoryCustomImpl.kt:109-119 | holds exactly for rows at or after the bound, or at or after the epoch when no bound is given |
| HistoryPagination.OccurredAtToPredicate | src/main/kotlin/dev/crashteam/chest/repository/WalletHistoryRepositoryCustomImpl.kt:132-140 | holds exactly for rows at or before the bound; always true without one |
| HistoryPagination.CreatedAtFromPredicate | src/main/kotlin/dev/crashteam/chest/repository/WalletHistoryRepositoryCustomImpl.kt:121-130 | builds only when no bound is given, and is then always true |
| HistoryPagination.CreatedAtToPredicate | src/main/kotlin/dev/crashteam/chest/repository/WalletHistoryRepositoryCustomImpl.kt:142-151 | builds only when no bound is given, and is then always true |
| HistoryPagination.ContinuationPredicate | src/main/kotlin/dev/crashteam/chest/repository/WalletHistoryRepositoryCustomImpl.kt:94-107 | defined exactly for epoch seconds whose date `LocalDateTime` can hold, failing with the `DateTimeException` of `Jvm.OfInstantSecond` otherwise; then holds exactly for rows at or after that second whose walletId column is above the token id |
| HistoryPagination.CursorBounds | src/main/kotlin/dev/crashteam/chest/repository/WalletHistoryRepositoryCustomImpl.kt:103-106 | the two comparisons of the cursor mean: epoch second at least the token's, and walletId above the token id |
| HistoryPagination.Insert | src/main/kotlin/dev/crashteam/chest/repository/WalletHistoryRepositoryCustomImpl.kt:46-49 | inserting into a sorted sequence keeps it sorted and adds exactly that row |
| HistoryPagination.SortBy | src/main/kotlin/dev/crashteam/chest/repository/WalletHistoryRepositoryCustomImpl.kt:46-49 | the ORDER BY result is sorted by the key and a permutation of its input |
| HistoryPagination.MaxResults | src/main/kotlin/dev/crashteam/chest/repository/WalletHistoryRepositoryCustomImpl.kt:50 | `setMaxResults(limit + 1)` accepts exactly limit >= -1 below Int.MAX_VALUE and then uses limit + 1; Int.MAX_VALUE wraps to a negative limit, which fails |
| HistoryPagination.PrefixOfOrdering | src/main/kotlin/dev/crashteam/chest/repository/WalletHistoryRepositoryCustomImpl.kt:46-50 | the first n rows of an ordering are drawn from the rows, are all of them when n covers every row, and otherwise include every row ordered strictly before the last one kept |
| HistoryPagination.PrefixIsKeysetPage | src/main/kotlin/dev/crashteam/chest/repository/WalletHistoryRepositoryCustomImpl.kt:50 | the first rows of an ordering of the admitted rows form a keyset page |
| HistoryPagination.RunQueryIsKeysetPage | src/main/kotlin/dev/crashteam/chest/repository/WalletHistoryRepositoryCustomImpl.kt:43-50 | the query's rows are sorted, drawn from the rows all predicates accept, all of them when fewer than the limit, and otherwise every accepted row ordered before the last one |
| HistoryPagination.RunQuery | src/main/kotlin/dev/crashteam/chest/repository/WalletHistoryRepositoryCustomImpl.kt:43-50 | at most maxResults rows, sorted by the key, each a history row all predicates accept |
| HistoryPagination.FirstPagePredicates | src/main/kotlin/dev/crashteam/chest/repository/WalletHistoryRepositoryCustomImpl.kt:34-42 | all predicates build, and together they hold exactly within the inclusive bounds given; the walletId equality is not among them |
| HistoryPagination.KeyParams | src/main/kotlin/dev/crashteam/chest/repository/WalletHistoryRepositoryCustomImpl.kt:51-58 | holds an occurred_at_from entry exactly when from is given, an occurred_at_to entry exactly when to is given, and no other key |
| HistoryPagination.FindWalletHistoryIn | src/main/kotlin/dev/crashteam/chest/repository/WalletHistoryRepositoryCustomImpl.kt:25-61 | filling the predicate list and the key parameters step by step yields the first-page query result |
| HistoryPagination.FirstPageOutcome | src/main/kotlin/dev/crashteam/chest/repository/WalletHistoryRepositoryCustomImpl.kt:50-60 | the first page succeeds exactly for -1 <= limit < Int.MAX_VALUE; then `createPage` gets no token, the key parameters of the bounds and size limit + 1 |
| HistoryPagination.FindWalletHistory | src/main/kotlin/dev/crashteam/chest/repository/WalletHistoryRepositoryCustomImpl.kt:25-61 | a page handed to `createPage` has size limit + 1, at most that many entities, each a history row |
| HistoryPagination.FirstPageRows | src/main/kotlin/dev/crashteam/chest/repository/WalletHistoryRepositoryCustomImpl.kt:34-50 | the first page's rows form a keyset page of limit + 1 rows over the rows within the bounds, of every wallet, ordered by walletId then occurredAt |
| HistoryPagination.FirstPageIgnoresWalletId | src/main/kotlin/dev/crashteam/chest/repository/WalletHistoryRepositoryCustomImpl.kt:35 | a row of another wallet within the bounds is on the first page |
| HistoryPagination.CarriedBoundPredicates | src/main/kotlin/dev/crashteam/chest/repository/WalletHistoryRepositoryCustomImpl.kt:71-74 | carried key parameters give the to-builder the FROM value and the from-builder the TO value; no key parameters give no predicates |
| HistoryPagination.FindNextWalletHistoryIn | src/main/kotlin/dev/crashteam/chest/repository/WalletHistoryRepositoryCustomImpl.kt:63-92 | filling the predicate list step by step yields the next-page query result |
| HistoryPagination.CarriedBoundsResolve | src/main/kotlin/dev/crashteam/chest/repository/WalletHistoryRepositoryCustomImpl.kt:121-151 | the carried bounds build exactly when the token carries no bound, and then filter nothing |
| HistoryPagination.NextPageOutcome | src/main/kotlin/dev/crashteam/chest/repository/WalletHistoryRepositoryCustomImpl.kt:63-92 | a token with a bound always fails on `createdAt`; a non-UUID id, a second whose date `LocalDateTime` cannot hold or a bad limit also fail; otherwise `createPage` gets the token, its key parameters and size limit + 1 |
| HistoryPagination.FindNextWalletHistory | src/main/kotlin/dev/crashteam/chest/repository/WalletHistoryRepositoryCustomImpl.kt:63-92 | a page handed to `createPage` carries the token and its key parameters, has size limit + 1 and at most that many entities, each a history row at or after the token's second |
| HistoryPagination.NextPageRows | src/main/kotlin/dev/crashteam/chest/repository/WalletHistoryRepositoryCustomImpl.kt:75-84 | a successful next page has a UUID token id and a limit in range, and its rows form a keyset page of limit + 1 rows over the rows after the cursor, ordered by occurredAt then walletId |
| HistoryPagination.NextPageSkipsTokenWallet | src/main/kotlin/dev/crashteam/chest/repository/WalletHistoryRepositoryCustomImpl.kt:100-105 | no row of the wallet whose id the token carries is ever on a next page |
| HistoryPagination.LimitEdges | src/main/kotlin/dev/crashteam/chest/repository/WalletHistoryRepositoryCustomImpl.kt:50 | limit Int.MAX_VALUE fails with a negative row limit; limit -1 gives an empty page |
| OutboxRelay.RecordOf | src/main/kotlin/dev/crashteam/chest/outbox/EventOutMessagePublisher.kt:28-29 | the record is keyed by the event's walletId and carries the event |
| OutboxRelay.PublishWalletEvent | src/main/kotlin/dev/crashteam/chest/outbox/EventOutMessagePublisher.kt:23-31 | an empty outbox or a failed call changes nothing and publishes nothing; at most one record, only on an accepted send; the call only removes outbox rows; every record is built from an outbox row |
| OutboxRelay.PublishWalletEventOn | src/main/kotlin/dev/crashteam/chest/outbox/EventOutMessagePublisher.kt:23-31 | the deletion then the send leave the tables, the published records and the outcome as `PublishWalletEvent` computes; replies are untouched |
| OutboxRelay.EmptyOutboxIsNoOp | src/main/kotlin/dev/crashteam/chest/outbox/EventOutMessagePublisher.kt:25 | an empty outbox: nothing is published and nothing changes |
| OutboxRelay.PublishesOldestRow | src/main/kotlin/dev/crashteam/chest/outbox/EventOutMessagePublisher.kt:25-30 | an accepted send publishes exactly the oldest row's event, keyed by its walletId, and removes exactly that row |
| OutboxRelay.ThrownSendIsRetried | src/main/kotlin/dev/crashteam/chest/outbox/EventOutMessagePublisher.kt:23-30 | a send that throws rolls the deletion back: tables unchanged, nothing published |
| OutboxRelay.LateSendFailureLosesEvent | src/main/kotlin/dev/crashteam/chest/outbox/EventOutMessagePublisher.kt:25-30 | a send that fails after the call returned loses the row: removed, never published |
| OutboxRelay.PublishKeepsValid | src/main/kotlin/dev/crashteam/chest/outbox/EventOutMessagePublisher.kt:25 | a relay step keeps the outbox ids increasing |
| OutboxRelay.RelayIsFifo | src/main/kotlin/dev/crashteam/chest/outbox/EventOutMessagePublisher.kt:25 | while sends are accepted, n polls publish the n oldest rows once each in id order and leave the rest pending |
| OutboxRelay.IdleRelayPublishesNothing | src/main/kotlin/dev/crashteam/chest/outbox/EventOutMessagePublisher.kt:25 | polls over an empty outbox publish nothing and change nothing |
| OutboxRelay.Relay | src/main/kotlin/dev/crashteam/chest/outbox/EventOutMessagePublisher.kt:23-31 | successive polls publish at most one record each, only remove outbox rows, and publish only records built from rows that were in the outbox |
| Dispatch.Acknowledgment.constructor | src/main/kotlin/dev/crashteam/chest/listener/PaymentEventListener.kt:29 | a new acknowledgment has not been acknowledged |
| Dispatch.Acknowledgment.Acknowledge | src/main/kotlin/dev/crashteam/chest/listener/PaymentEventListener.kt:39 | each call acknowledges once more |
| Dispatch.DecodeAll | src/main/kotlin/dev/crashteam/chest/listener/PaymentEventListener.kt:32-34 | success gives one event per record, each the parse of its record; failure names the first record the parser refuses |
| Dispatch.FirstAccepting | src/main/kotlin/dev/crashteam/chest/listener/PaymentEventListener.kt:35 | `find` gives the first handler that accepts the event, or none when no handler does |
| Dispatch.Keys | src/main/kotlin/dev/crashteam/chest/listener/PaymentEventListener.kt:35 | the groupBy keys are distinct and are exactly the keys of the batch's elements |
| Dispatch.Positions | src/main/kotlin/dev/crashteam/chest/listener/PaymentEventListener.kt:35 | the positions of a key are increasing and are exactly the positions whose element has that key |
| Dispatch.Pick | src/main/kotlin/dev/crashteam/chest/listener/PaymentEventListener.kt:37 | a group's elements are the batch elements at its positions, in that order |
| Dispatch.GroupsOf | src/main/kotlin/dev/crashteam/chest/listener/PaymentEventListener.kt:35 | one group per key, in key order, every position within the batch |
| Dispatch.GroupBy | src/main/kotlin/dev/crashteam/chest/listener/PaymentEventListener.kt:35 | one group per key of the batch, in order of first occurrence, each holding exactly the positions of the elements with its key |
| Dispatch.KeysInFirstOccurrenceOrder | src/main/kotlin/dev/crashteam/chest/listener/PaymentEventListener.kt:35 | the keys come in the order their first element occurs, as in a LinkedHashMap |
| Dispatch.GroupByPartitions | src/main/kotlin/dev/crashteam/chest/listener/PaymentEventListener.kt:35 | groupBy partitions the batch: distinct keys, non-empty groups, each exactly the increasing positions of its key, and every element in a group |
| Dispatch.GroupsInFirstOccurrenceOrder | src/main/kotlin/dev/crashteam/chest/listener/PaymentEventListener.kt:35 | an earlier group starts at an earlier position |
| Dispatch.SplitAtGroup | src/main/kotlin/dev/crashteam/chest/listener/PaymentEventListener.kt:35-38 | the groups split around the group of one key; the others carry other keys; a key with no group has no positions |
| PaymentHandling.IsHandle | src/main/kotlin/dev/crashteam/chest/handler/payment/PaymentChangeEventHandler.kt:79-81 | an event isHandle declines carries no payment change |
| PaymentHandling.StoredPayment | src/main/kotlin/dev/crashteam/chest/handler/payment/PaymentChangeEventHandler.kt:50 | a found payment is stored, has that paymentId and is the only such row; no matching row fails with PaymentNotFound |
| PaymentHandling.RecordPayment | src/main/kotlin/dev/crashteam/chest/handler/payment/PaymentChangeEventHandler.kt:33-47 | succeeds exactly when `LocalDateTime.ofEpochSecond` accepts the creation timestamp (nano-of-second and date range); then appends one payment with the event's id, status name, amount, description and currency against the user's wallet, creating at most the wallet with the fresh id; the event log is untouched |
| PaymentHandling.ChangeStatus | src/main/kotlin/dev/crashteam/chest/handler/payment/PaymentChangeEventHandler.kt:48-61 | a missing payment fails; a status other than SUCCESS changes nothing; the event log is untouched |
| PaymentHandling.Refund | src/main/kotlin/dev/crashteam/chest/handler/payment/PaymentChangeEventHandler.kt:62-70 | a missing payment fails; the event log is untouched |
| PaymentHandling.RefundDebitsStoredWallet | src/main/kotlin/dev/crashteam/chest/handler/payment/PaymentChangeEventHandler.kt:62-70 | a refund succeeds exactly when the payment's wallet exists and passes the debit check, then lowers only that wallet by the refund amount; otherwise it fails with NotEnoughMoney |
| PaymentHandling.ApplyChange | src/main/kotlin/dev/crashteam/chest/handler/payment/PaymentChangeEventHandler.kt:32-70 | an event with none of the three changes does nothing; the event log is untouched |
| PaymentHandling.HandleOne | src/main/kotlin/dev/crashteam/chest/handler/payment/PaymentChangeEventHandler.kt:26-75 | an already-logged event is skipped with no effect; otherwise its id, and only its id, is added to the log |
| PaymentHandling.Handle | src/main/kotlin/dev/crashteam/chest/handler/payment/PaymentChangeEventHandler.kt:24-77 | a batch keeps the tables' integrity |
| PaymentHandling.HandleLegacy | src/main/kotlin/dev/crashteam/chest/handler/PaymentChangeEventHandler.kt:18-61 | a legacy batch keeps the tables' integrity and never writes the event log |
| PaymentHandling.HandleLogsEveryEvent | src/main/kotlin/dev/crashteam/chest/handler/payment/PaymentChangeEventHandler.kt:71-75 | after a committed batch the log holds exactly the old ids plus every id of the batch, handled or not |
| PaymentHandling.LoggedBatchIsNoOp | src/main/kotlin/dev/crashteam/chest/handler/payment/PaymentChangeEventHandler.kt:27-31 | a batch whose ids are all logged changes nothing |
| PaymentHandling.HandleIsIdempotent | src/main/kotlin/dev/crashteam/chest/handler/payment/PaymentChangeEventHandler.kt:26-75 | redelivering a committed batch changes nothing, whatever fresh values it draws |
| PaymentHandling.HandleAppend | src/main/kotlin/dev/crashteam/chest/handler/payment/PaymentChangeEventHandler.kt:26 | a batch runs as its first part and then, if that passed, its second part on the result |
| PaymentHandling.RepeatInBatchIsSkipped | src/main/kotlin/dev/crashteam/chest/handler/payment/PaymentChangeEventHandler.kt:26-31 | an event whose id already occurred earlier in the batch is skipped |
| PaymentHandling.StoredPaymentAfterStatusUpdate | src/main/kotlin/dev/crashteam/chest/handler/payment/PaymentChangeEventHandler.kt:57-60 | after the status update the lookup finds the same payment with the new status |
| PaymentHandling.ChangeStatusCredits | src/main/kotlin/dev/crashteam/chest/handler/payment/PaymentChangeEventHandler.kt:51-60 | SUCCESS credits the stored amount to the payment's wallet and then updates the status |
| PaymentHandling.SuccessCreditsStoredAmount | src/main/kotlin/dev/crashteam/chest/handler/payment/PaymentChangeEventHandler.kt:51-60 | SUCCESS raises only the payment's wallet by its amount and marks it SUCCESS, whatever its earlier status |
| PaymentHandling.SecondSuccessCreditsAgain | src/main/kotlin/dev/crashteam/chest/handler/payment/PaymentChangeEventHandler.kt:51-57 | a second SUCCESS for the same payment credits its amount again |
| PaymentHandling.CreditedTwice | src/main/kotlin/dev/crashteam/chest/handler/payment/PaymentChangeEventHandler.kt:51-60 | two SUCCESS changes in a row raise the wallet by twice the amount and keep the event log |
| PaymentHandling.HandleSingle | src/main/kotlin/dev/crashteam/chest/handler/payment/PaymentChangeEventHandler.kt:26 | a one-event batch is one step of the loop |
| PaymentHandling.HandleTwo | src/main/kotlin/dev/crashteam/chest/handler/payment/PaymentChangeEventHandler.kt:26 | a two-event batch is two steps of the loop, the second only if the first passed |
| PaymentHandling.SuccessEventCredits | src/main/kotlin/dev/crashteam/chest/handler/payment/PaymentChangeEventHandler.kt:26-75 | an unlogged SUCCESS event credits the stored amount, marks the payment SUCCESS and logs its id |
| PaymentHandling.DistinctIdsCreditTwice | src/main/kotlin/dev/crashteam/chest/handler/payment/PaymentChangeEventHandler.kt:27-60 | two SUCCESS events for one payment under different ids credit it twice: dedup is by event id only |
| PaymentHandling.LegacyAppliesDuplicateTwice | src/main/kotlin/dev/crashteam/chest/handler/PaymentChangeEventHandler.kt:20-50 | the legacy handler has no dedup: the same SUCCESS event twice credits twice |
| PaymentHandling.ReplayInBatchIsSkipped | src/main/kotlin/dev/crashteam/chest/handler/payment/PaymentChangeEventHandler.kt:26-31 | a batch holding one event twice runs as the event alone |
| PaymentHandling.CreatedRecordsOnePayment | src/main/kotlin/dev/crashteam/chest/handler/payment/PaymentChangeEventHandler.kt:33-47 | one created event records one payment and creates at most the wallet with the fresh id |
| PaymentHandling.CreatedReplayRecordsOnePayment | src/main/kotlin/dev/crashteam/chest/handler/payment/PaymentChangeEventHandler.kt:26-47 | a created event replayed under the same id still records exactly one payment |
| PaymentHandler.RecordPaymentIn | src/main/kotlin/dev/crashteam/chest/handler/payment/PaymentChangeEventHandler.kt:33-47 | the store ends as `PaymentHandling.RecordPayment` says, or unchanged on failure; nothing is sent |
| PaymentHandler.ChangeStatusIn | src/main/kotlin/dev/crashteam/chest/handler/payment/PaymentChangeEventHandler.kt:48-61 | the store ends as `PaymentHandling.ChangeStatus` says, or unchanged on failure; nothing is sent |
| PaymentHandler.RefundIn | src/main/kotlin/dev/crashteam/chest/handler/payment/PaymentChangeEventHandler.kt:62-70 | the store ends as `PaymentHandling.Refund` says, or unchanged on failure; nothing is sent |
| PaymentHandler.ApplyChange | src/main/kotlin/dev/crashteam/chest/handler/payment/PaymentChangeEventHandler.kt:32-70 | the store ends as `PaymentHandling.ApplyChange` says, or unchanged on failure |
| PaymentHandler.Handle | src/main/kotlin/dev/crashteam/chest/handler/payment/PaymentChangeEventHandler.kt:24-77 | the loop leaves the store as `PaymentHandling.Handle` says, or rolled back to the state before the batch |
| PaymentHandler.HandleLegacy | src/main/kotlin/dev/crashteam/chest/handler/PaymentChangeEventHandler.kt:18-61 | the loop leaves the store as `PaymentHandling.HandleLegacy` says, or rolled back to the state before the batch |
| CreditReservation.IsHandle | src/main/kotlin/dev/crashteam/chest/handler/wallet/WalletReserveCreditCommandHandler.kt:100-102 | a command isHandle declines is read as the empty default reservation |
| CreditReservation.Reply | src/main/kotlin/dev/crashteam/chest/handler/wallet/WalletReserveCreditCommandHandler.kt:104-115 | the reply is keyed by the user, names the user and carries the payload, a fresh event id and the current time |
| CreditReservation.ReserveOne | src/main/kotlin/dev/crashteam/chest/handler/wallet/WalletReserveCreditCommandHandler.kt:32-96 | every pass keeps the tables' integrity and yields one reply keyed by the command's user, carrying its user and transaction ids |
| CreditReservation.ReserveOneOutcome | src/main/kotlin/dev/crashteam/chest/handler/wallet/WalletReserveCreditCommandHandler.kt:33-96 | unknown user: UserNotFound, no change; the check refuses: CreditLimitExceeded with the balance read before, no change; otherwise the wallet is lowered by the amount, one history and one outbox row are added, and CreditReserved reports the amount and the lowered balance |
| CreditReservation.Handle | src/main/kotlin/dev/crashteam/chest/handler/wallet/WalletReserveCreditCommandHandler.kt:29-98 | a batch keeps the tables' integrity and yields exactly one reply per command |
| CreditReservation.EveryCommandAnswered | src/main/kotlin/dev/crashteam/chest/handler/wallet/WalletReserveCreditCommandHandler.kt:31-97 | reply i answers command i: keyed by its user, with its user and transaction ids and its own fresh event id |
| CreditReservation.HandleCons | src/main/kotlin/dev/crashteam/chest/handler/wallet/WalletReserveCreditCommandHandler.kt:31 | a batch is its first command followed by the rest, on the tables the first left |
| CreditReservation.HandleTwo | src/main/kotlin/dev/crashteam/chest/handler/wallet/WalletReserveCreditCommandHandler.kt:31 | a two-command batch is two passes of the loop |
| CreditReservation.FoundAfterReservation | src/main/kotlin/dev/crashteam/chest/handler/wallet/WalletReserveCreditCommandHandler.kt:55-77 | after a granted reservation the lookup by user finds the wallet with the lowered balance the reply reports |
| CreditReservation.UnknownUserLeavesLedger | src/main/kotlin/dev/crashteam/chest/handler/wallet/WalletReserveCreditCommandHandler.kt:33-53 | a command for a user without a wallet gets one UserNotFound reply and changes no table |
| CreditReservation.RedeliveryDebitsTwice | src/main/kotlin/dev/crashteam/chest/handler/wallet/WalletReserveCreditCommandHandler.kt:29-98 | no dedup: the same command twice is debited and answered twice |
| CreditReservation.GrantedAgain | src/main/kotlin/dev/crashteam/chest/handler/wallet/WalletReserveCreditCommandHandler.kt:55-77 | a second grant lowers the already lowered wallet by the amount again and reports that balance |
| CreditReservation.GrantedTwice | src/main/kotlin/dev/crashteam/chest/handler/wallet/WalletReserveCreditCommandHandler.kt:55-77 | two grants in a row lower the wallet by twice the amount, each reply reporting its balance |
| CreditReservation.GrantedThenRefused | src/main/kotlin/dev/crashteam/chest/handler/wallet/WalletReserveCreditCommandHandler.kt:55-96 | a grant then a reservation the lowered balance cannot cover: the second is refused with that balance and writes nothing |
| CreditReservation.OnlyOneOfTwoFits | src/main/kotlin/dev/crashteam/chest/handler/wallet/WalletReserveCreditCommandHandler.kt:55-96 | of two reservations where only the first fits: one CreditReserved, one CreditLimitExceeded with the balance the first left; the wallet is lowered by the first amount only |
| ReserveCreditHandler.ReserveOne | src/main/kotlin/dev/crashteam/chest/handler/wallet/WalletReserveCreditCommandHandler.kt:32-96 | one pass against the store ends as `CreditReservation.ReserveOne` says and returns its reply |
| ReserveCreditHandler.HandleStep | src/main/kotlin/dev/crashteam/chest/handler/wallet/WalletReserveCreditCommandHandler.kt:31 | the rest of the batch from i is pass i followed by the rest from i + 1 |
| ReserveCreditHandler.HandleAt | src/main/kotlin/dev/crashteam/chest/handler/wallet/WalletReserveCreditCommandHandler.kt:31-97 | a pass of the loop keeps its invariant: replies sent so far follow the spec's, and the rest ends where the whole batch does |
| ReserveCreditHandler.Handle | src/main/kotlin/dev/crashteam/chest/handler/wallet/WalletReserveCreditCommandHandler.kt:29-98 | the loop ends with the tables of `CreditReservation.Handle` and its replies sent in order after those already sent; no wallet event is published |
| PaymentEventListener.RunGroups | src/main/kotlin/dev/crashteam/chest/listener/PaymentEventListener.kt:36-38 | handling the groups keeps the tables' integrity |
| PaymentEventListener.HandleGroup | src/main/kotlin/dev/crashteam/chest/listener/PaymentEventListener.kt:36-37 | handling one group keeps the tables' integrity; a failed batch leaves the tables as they were; an empty group changes nothing |
| PaymentEventListener.Receive | src/main/kotlin/dev/crashteam/chest/listener/PaymentEventListener.kt:31-43 | the batch fails on decoding exactly when some record cannot be parsed, and then no handler runs: the tables are unchanged and the failure names the first such record |
| PaymentEventListener.RunGroupsAppend | src/main/kotlin/dev/crashteam/chest/listener/PaymentEventListener.kt:36-38 | the groups split in two run as the first part, then the second on the tables it committed, unless the first failed |
| PaymentEventListener.UnroutedGroupsAreSkipped | src/main/kotlin/dev/crashteam/chest/listener/PaymentEventListener.kt:37 | groups no bean accepts change nothing and pass |
| PaymentEventListener.UnacceptedBatchIsDropped | src/main/kotlin/dev/crashteam/chest/listener/PaymentEventListener.kt:35-39 | a decodable batch no bean accepts changes nothing and passes |
| PaymentEventListener.NoGroupRouted | src/main/kotlin/dev/crashteam/chest/listener/PaymentEventListener.kt:35 | events no bean accepts all fall in groups without a handler |
| PaymentEventListener.RoutedIffPaymentChange | src/main/kotlin/dev/crashteam/chest/listener/PaymentEventListener.kt:35 | with the application's bean, an event is routed exactly when it carries a payment change, and otherwise has no handler |
| PaymentEventListener.OnlyTwoKeys | src/main/kotlin/dev/crashteam/chest/listener/PaymentEventListener.kt:35 | with the application's bean, the group keys are that bean or none |
| PaymentEventListener.RunOnlyRoutedGroup | src/main/kotlin/dev/crashteam/chest/listener/PaymentEventListener.kt:36-38 | when one group is routed and the others are not, the batch comes to that group's handling |
| PaymentEventListener.RunGroupsWithPaymentChangeHandler | src/main/kotlin/dev/crashteam/chest/listener/PaymentEventListener.kt:35-38 | with the application's bean, the payment-change events go to the handler as one batch, in batch order; the others are dropped |
| PaymentEventListener.ReceiveWithPaymentChangeHandler | src/main/kotlin/dev/crashteam/chest/listener/PaymentEventListener.kt:31-43 | a decodable batch: the payment-change events are handled as one batch in batch order; a handler failure leaves the tables as they were and fails the batch |
| PaymentEventListener.RedeliveryIsNoOp | src/main/kotlin/dev/crashteam/chest/listener/PaymentEventListener.kt:31-43 | redelivering an acknowledged batch changes nothing and is acknowledged again |
| PaymentEventListener.ReceiveBatch | src/main/kotlin/dev/crashteam/chest/listener/PaymentEventListener.kt:25-45 | the tables end as `Receive` computes; the batch is acknowledged exactly once when it passes and not at all when it throws; nothing is sent |
| WalletCommandEventListener.RunGroups | src/main/kotlin/dev/crashteam/chest/listener/WalletCommandEventListener.kt:36-38 | handling the groups keeps the tables' integrity |
| WalletCommandEventListener.Receive | src/main/kotlin/dev/crashteam/chest/listener/WalletCommandEventListener.kt:31-43 | the batch fails exactly when some record cannot be parsed, and then no handler runs: tables unchanged, nothing sent, the failure naming an unparsable record |
| WalletCommandEventListener.RunGroupsAppend | src/main/kotlin/dev/crashteam/chest/listener/WalletCommandEventListener.kt:36-38 | the groups split in two run as the first part then the second on its tables, the replies in that order |
| WalletCommandEventListener.UnroutedGroupsAreSkipped | src/main/kotlin/dev/crashteam/chest/listener/WalletCommandEventListener.kt:37 | groups no bean accepts change nothing and send nothing |
| WalletCommandEventListener.OnlyTwoKeys | src/main/kotlin/dev/crashteam/chest/listener/WalletCommandEventListener.kt:35 | with the application's bean, the group keys are that bean or none |
| WalletCommandEventListener.RunOnlyRoutedGroup | src/main/kotlin/dev/crashteam/chest/listener/WalletCommandEventListener.kt:36-38 | when one group is routed and the others are not, the batch comes to that group's handling |
| WalletCommandEventListener.RunGroupsWithReserveHandler | src/main/kotlin/dev/crashteam/chest/listener/WalletCommandEventListener.kt:35-38 | with the application's bean, the reservation commands go to the handler as one batch in batch order; the others are dropped |
| WalletCommandEventListener.ReceiveWithReserveHandler | src/main/kotlin/dev/crashteam/chest/listener/WalletCommandEventListener.kt:31-43 | a decodable batch: the reservation commands are handled as one batch and the batch passes |
| WalletCommandEventListener.EveryReservationAnswered | src/main/kotlin/dev/crashteam/chest/listener/WalletCommandEventListener.kt:31-39 | each reservation record gets exactly one reply, in batch order, keyed by its user with its transaction id; other records get none |
| WalletCommandEventListener.RunGroupsStep | src/main/kotlin/dev/crashteam/chest/listener/WalletCommandEventListener.kt:36-38 | the groups from i are group i, handled or skipped, followed by the groups from i + 1 |
| WalletCommandEventListener.HandleGroupAt | src/main/kotlin/dev/crashteam/chest/listener/WalletCommandEventListener.kt:36-38 | one pass of the forEach keeps its invariant |
| WalletCommandEventListener.HandleGroups | src/main/kotlin/dev/crashteam/chest/listener/WalletCommandEventListener.kt:36-38 | the forEach ends with the tables of `RunGroups` and its replies sent in order |
| WalletCommandEventListener.ReceiveBatch | src/main/kotlin/dev/crashteam/chest/listener/WalletCommandEventListener.kt:25-44 | tables and replies end as `Receive` computes; acknowledged exactly once when the batch passes, never when it throws; no wallet event is published |

## Left out

- Kafka itself (partitions, offsets, consumer groups, the listener container's redelivery and back-off) is not modelled. A topic is a sequence of records the store appends to. Redelivery is modelled as running `receive` again on the same batch.
- The scheduled poller and ShedLock are not modelled; `OutboxRelay.Relay` stands for successive polls. Database concurrency is not modelled either: row locks (`findByWalletIdWithLock`, `findByUserIdWithLock`) and interleaved transactions. Every transaction runs alone.
- The protobuf encoding of events, commands and replies is not modelled. Decoding is the `parse` parameter, and the outbox stores the event value instead of its bytes.
- `UUID.randomUUID()`, `LocalDateTime.now()` and `Instant.now()` are not modelled; they are the fields of a `Fresh` draw. One call reads the clock once: the source reads it several times within microseconds.
- Logging is not modelled: it has no effect on state.
- The gRPC endpoints are not modelled. They call `WalletService` and are not part of this model, and neither are `getUserWalletByUser` and `getWalletById`. Those two are the lookups `Tables.FindByUserId` and `Tables.FindById`.
- `findByUserIdWithLock`: not modelled separately. It is `Tables.FindByUserId` plus a row lock, and no operation in this model calls it.
- The legacy `handler/PaymentChangeEventHandler` is modelled (`PaymentHandling.HandleLegacy`, `PaymentHandler.HandleLegacy`). It is not routed from the listener. The listener injects the beans of `handler.payment.PaymentEventHandler`, and the legacy handler implements the other interface, `handler.PaymentEventHandler`.
- Nested `@Transactional` calls are modelled as one transaction. A `WalletNotEnoughMoneyException` that the credit reservation handler catches is modelled as writing nothing, which is what the refused debit itself does. Spring's transaction interceptor is not modelled. When an exception (the exception class is not part of this model) leaves the transactional `decreaseWalletAmount`, the interceptor may mark the enclosing batch transaction rollback-only. Whether that makes the batch's commit fail depends on that class and on the transaction configuration.
- `HistoryPagination.SortBy`: the ORDER BY is any ordering of the rows by the key. Which of two rows with equal keys comes first is left open, as in SQL.
- `createPage` and the encoding of continuation tokens are not modelled. A query returns the arguments it hands to `createPage`. The token's key parameters keep the bound as a time where the source keeps its `Timestamp` text.
- `Uuids.FromString` accepts only the canonical 36-character form. Java also accepts shorter groups, which the service never produces.
- PostgreSQL's `uuid` order is modelled as the numeric order of the 128-bit value.
- `Jvm.StringHash` treats each `char` as one UTF-16 unit. Characters outside the Basic Multilingual Plane are not split into surrogate pairs.
- Database errors other than bigint overflow, duplicate user ids and non-unique single results are not modelled (connection loss, serialization failures). Sequence exhaustion is not modelled either: ids are unbounded.
- `LocalDateTime` is modelled as nanoseconds since the epoch in UTC, without its year range, except where the code converts epoch seconds: `Jvm.OfEpochSecond` (used by `PaymentHandling.RecordPayment`) and `Jvm.OfInstantSecond` (used by `HistoryPagination.ContinuationPredicate`) fail outside that range.
- Jvm.LongHash: carries no contract. Its only use is `Entities.MessageHashCode`, whose agreement with `equals` does not depend on it. Facts about it need conversions between integers and 32-bit patterns, which the solver does not settle within the resource limit.
- Uuids.Hash: carries no contract, for the same reason. `Entities.WalletHashAgreesWithEquals` does not depend on it.
- `Tables.FindByPaymentId`: the contract does not say which error a non-unique result raises, only what a found row is.
