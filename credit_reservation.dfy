/** `WalletReserveCreditCommandHandler` as functions on the tables: every
    command is answered by exactly one reply on the command response topic,
    chosen among user-not-found, credit-reserved and credit-limit-exceeded. */
module CreditReservation {
  import opened Wrappers
  import opened Jvm
  import opened Uuids
  import opened Entities
  import opened Tables
  import opened WalletLedger
  import Seqs

  /** The `walletReserveCredit` command. */
  datatype ReserveCredit = ReserveCredit(userId: string, amount: Long, trxId: string, description: string)

  /** A wallet command's payload: a credit reservation or another command. */
  datatype WalletCommandPayload = WalletReserveCredit(command: ReserveCredit) | OtherCommand

  datatype WalletCommandEvent = WalletCommandEvent(payload: WalletCommandPayload)

  /** `walletCommandEvent.payload.walletReserveCredit`: the default instance
      (empty strings, amount 0) when the payload holds another command. */
  function ReserveOf(c: WalletCommandEvent): ReserveCredit {
    match c.payload
    case WalletReserveCredit(command) => command
    case OtherCommand => ReserveCredit("", 0, "", "")
  }

  /** `isHandle`: the payload holds a credit reservation; a command it
      declines would be read as the default, empty reservation. */
  function IsHandle(c: WalletCommandEvent): (accepted: bool)
    ensures !accepted ==> ReserveOf(c) == ReserveCredit("", 0, "", "")
  {
    c.payload.WalletReserveCredit?
  }

  /** `buildReplyEvent` and the record it is sent in, keyed by the user. */
  function Reply(userId: string, f: Fresh, payload: ReplyPayload): (r: ProducerRecord<WalletReplyEvent>)
    ensures r.key == userId && r.value.userId == userId && r.value.payload == payload
    ensures r.value.eventId == Uuids.ToString(f.replyId) && r.value.createdAt == f.now
  {
    ProducerRecord(userId, WalletReplyEvent(Uuids.ToString(f.replyId), f.now, userId, payload))
  }

  /** One iteration of the loop: look the user's wallet up, then debit it,
      answering with the outcome. A refused debit is caught and answered with
      the balance read before the attempt; it writes nothing. */
  function ReserveOne(db: Db, c: ReserveCredit, f: Fresh): (r: (Db, ProducerRecord<WalletReplyEvent>))
    requires ValidDb(db)
    ensures ValidDb(r.0)
    ensures r.1.key == c.userId && r.1.value.userId == c.userId && r.1.value.eventId == Uuids.ToString(f.replyId)
    ensures r.1.value.payload.userId == c.userId && r.1.value.payload.trxId == c.trxId
  {
    match FindByUserId(db.wallets, c.userId)
    case None => (db, Reply(c.userId, f, WalletUserNotFound(c.userId, c.trxId)))
    case Some(w) =>
      DecreaseWalletAmountKeepsValid(db, w.id.value, c.amount, c.description, f);
      var debit := DecreaseWalletAmount(db, w.id.value, c.amount, c.description, f);
      if debit.Failure? then
        (db, Reply(c.userId, f, WalletCreditLimitExceeded(c.userId, c.trxId, w.amount)))
      else
        (debit.value.1, Reply(c.userId, f, WalletCreditReserved(c.userId, c.trxId, c.amount, debit.value.0.value.amount)))
  }

  /** The three answers: user not found and credit limit exceeded write
      nothing; a granted reservation lowers the wallet by the amount, adds one
      history row and one outbox row, and reports the lowered balance. */
  lemma ReserveOneOutcome(db: Db, c: ReserveCredit, f: Fresh)
    requires ValidDb(db)
    ensures var r := ReserveOne(db, c, f);
            !HasUser(db.wallets, c.userId) ==>
              r == (db, Reply(c.userId, f, WalletUserNotFound(c.userId, c.trxId)))
    ensures var r := ReserveOne(db, c, f);
            HasUser(db.wallets, c.userId) ==>
              var w := FindByUserId(db.wallets, c.userId).value;
              if InsufficientFunds(w.amount, c.amount) then
                r == (db, Reply(c.userId, f, WalletCreditLimitExceeded(c.userId, c.trxId, w.amount)))
              else
                && r.1 == Reply(c.userId, f, WalletCreditReserved(c.userId, c.trxId, c.amount, w.amount - c.amount))
                && r.0.wallets == db.wallets[w.id.value := w.(amount := w.amount - c.amount)]
                && |r.0.history| == |db.history| + 1 && |r.0.outbox| == |db.outbox| + 1
  {
  }

  /** `handle`: the commands in order, each with the fresh values its
      processing draws; the new tables and the replies sent. */
  function Handle(db: Db, commands: seq<WalletCommandEvent>, draws: seq<Fresh>)
    : (r: (Db, seq<ProducerRecord<WalletReplyEvent>>))
    requires ValidDb(db) && |draws| == |commands|
    ensures ValidDb(r.0)
    ensures |r.1| == |commands|
    decreases |commands|
  {
    if commands == [] then (db, [])
    else
      var step := ReserveOne(db, ReserveOf(commands[0]), draws[0]);
      var rest := Handle(step.0, commands[1..], draws[1..]);
      (rest.0, [step.1] + rest.1)
  }

  /** Every command gets exactly one reply, in the batch's order, keyed by
      the command's user and carrying its user and transaction ids. */
  lemma {:induction false} EveryCommandAnswered(db: Db, commands: seq<WalletCommandEvent>, draws: seq<Fresh>)
    requires ValidDb(db) && |draws| == |commands|
    ensures var replies := Handle(db, commands, draws).1;
            forall i :: 0 <= i < |commands| ==>
              && replies[i].key == ReserveOf(commands[i]).userId
              && replies[i].value.eventId == Uuids.ToString(draws[i].replyId)
              && replies[i].value.payload.userId == ReserveOf(commands[i]).userId
              && replies[i].value.payload.trxId == ReserveOf(commands[i]).trxId
    decreases |commands|
  {
    if commands != [] {
      var step := ReserveOne(db, ReserveOf(commands[0]), draws[0]);
      EveryCommandAnswered(step.0, commands[1..], draws[1..]);
      var replies := Handle(db, commands, draws).1;
      var rest := Handle(step.0, commands[1..], draws[1..]).1;
      assert replies == [step.1] + rest;
      forall i | 0 <= i < |commands|
        ensures && replies[i].key == ReserveOf(commands[i]).userId
                && replies[i].value.eventId == Uuids.ToString(draws[i].replyId)
                && replies[i].value.payload.userId == ReserveOf(commands[i]).userId
                && replies[i].value.payload.trxId == ReserveOf(commands[i]).trxId
      {
        if i > 0 {
          assert replies[i] == rest[i - 1] && commands[i] == commands[1..][i - 1] && draws[i] == draws[1..][i - 1];
        }
      }
    }
  }

  /** One iteration of the loop followed by the rest of the batch. */
  lemma HandleCons(db: Db, commands: seq<WalletCommandEvent>, draws: seq<Fresh>)
    requires ValidDb(db) && |draws| == |commands| > 0
    ensures var (db1, reply) := ReserveOne(db, ReserveOf(commands[0]), draws[0]);
            var (db2, replies) := Handle(db1, commands[1..], draws[1..]);
            Handle(db, commands, draws) == (db2, [reply] + replies)
  {
  }

  /** A two-command batch is two iterations of the loop. */
  lemma HandleTwo(db: Db, c1: WalletCommandEvent, c2: WalletCommandEvent, f1: Fresh, f2: Fresh)
    requires ValidDb(db)
    ensures var (db1, reply1) := ReserveOne(db, ReserveOf(c1), f1);
            var (db2, reply2) := ReserveOne(db1, ReserveOf(c2), f2);
            Handle(db, [c1, c2], [f1, f2]) == (db2, [reply1, reply2])
  {
    var step1 := ReserveOne(db, ReserveOf(c1), f1);
    HandleCons(db, [c1, c2], [f1, f2]);
    assert [c1, c2][1..] == [c2] && [f1, f2][1..] == [f2];
    HandleCons(step1.0, [c2], [f2]);
    assert [c2][1..] == [] && [f2][1..] == [];
    var step2 := ReserveOne(step1.0, ReserveOf(c2), f2);
    assert Handle(step2.0, [], []) == (step2.0, []);
    assert [step1.1] + ([step2.1] + []) == [step1.1, step2.1];
  }

  /** After a granted reservation the user's wallet is found with the
      lowered balance, which the reply reports. */
  lemma FoundAfterReservation(db: Db, w: WalletEntity, amount: Long, trxId: string, desc: string, f: Fresh)
    returns (db1: Db)
    requires ValidDb(db) && FindByUserId(db.wallets, w.userId) == Some(w)
    requires !InsufficientFunds(w.amount, amount)
    ensures var w' := w.(amount := w.amount - amount);
            && ReserveOne(db, ReserveCredit(w.userId, amount, trxId, desc), f)
               == (db1, Reply(w.userId, f, WalletCreditReserved(w.userId, trxId, amount, w.amount - amount)))
            && ValidDb(db1)
            && FindByUserId(db1.wallets, w.userId) == Some(w')
            && db1.wallets == db.wallets[w.id.value := w']
  {
    var w' := w.(amount := w.amount - amount);
    DecreaseWalletAmountKeepsValid(db, w.id.value, amount, desc, f);
    var debit := DecreaseWalletAmount(db, w.id.value, amount, desc, f);
    db1 := debit.value.1;
    assert debit.value.0 == Some(w');
    FindByUserIdOfMember(db1.wallets, w.id.value);
  }

  /** A command for a user without a wallet is answered UserNotFound and
      changes no table. */
  lemma UnknownUserLeavesLedger(db: Db, c: WalletCommandEvent, f: Fresh)
    requires ValidDb(db) && !HasUser(db.wallets, ReserveOf(c).userId)
    ensures var (db', replies) := Handle(db, [c], [f]);
            && db' == db
            && replies == [Reply(ReserveOf(c).userId, f, WalletUserNotFound(ReserveOf(c).userId, ReserveOf(c).trxId))]
  {
    ReserveOneOutcome(db, ReserveOf(c), f);
    assert [c][1..] == [] && [f][1..] == [];
  }

  /** No dedup: a redelivered command is debited and answered again. */
  lemma RedeliveryDebitsTwice(db: Db, w: WalletEntity, amount: Long, trxId: string, desc: string, f1: Fresh, f2: Fresh)
    requires ValidDb(db) && FindByUserId(db.wallets, w.userId) == Some(w)
    requires 0 < amount && 2 * amount < w.amount
    ensures var c := WalletCommandEvent(WalletReserveCredit(ReserveCredit(w.userId, amount, trxId, desc)));
            var (db', replies) := Handle(db, [c, c], [f1, f2]);
            && replies[0].value.payload == WalletCreditReserved(w.userId, trxId, amount, w.amount - amount)
            && replies[1].value.payload == WalletCreditReserved(w.userId, trxId, amount, w.amount - 2 * amount)
            && db'.wallets == db.wallets[w.id.value := w.(amount := w.amount - 2 * amount)]
  {
    var rc := ReserveCredit(w.userId, amount, trxId, desc);
    var c := WalletCommandEvent(WalletReserveCredit(rc));
    assert ReserveOf(c) == rc;
    var db1, db2 := GrantedTwice(db, w, amount, trxId, desc, f1, f2);
    HandleTwo(db, c, c, f1, f2);
  }

  /** A second grant of the same reservation, on tables where the first
      already lowered the wallet by the amount. */
  lemma GrantedAgain(db1: Db, w: WalletEntity, amount: Long, trxId: string, desc: string, f: Fresh)
    returns (db2: Db)
    requires 0 < amount && 2 * amount < w.amount
    requires ValidDb(db1) && FindByUserId(db1.wallets, w.userId) == Some(w.(amount := w.amount - amount))
    ensures && ReserveOne(db1, ReserveCredit(w.userId, amount, trxId, desc), f)
               == (db2, Reply(w.userId, f, WalletCreditReserved(w.userId, trxId, amount, w.amount - 2 * amount)))
            && db2.wallets == db1.wallets[w.id.value := w.(amount := w.amount - 2 * amount)]
  {
    var w1 := w.(amount := w.amount - amount);
    DebitCheckMeansNoOverdraft(w1.amount, amount);
    db2 := FoundAfterReservation(db1, w1, amount, trxId, desc, f);
    assert w1.(amount := w1.amount - amount) == w.(amount := w.amount - 2 * amount);
  }

  /** Two granted passes of the loop in a row for the same reservation,
      through the tables they leave. */
  lemma GrantedTwice(db: Db, w: WalletEntity, amount: Long, trxId: string, desc: string, f1: Fresh, f2: Fresh)
    returns (db1: Db, db2: Db)
    requires ValidDb(db) && FindByUserId(db.wallets, w.userId) == Some(w)
    requires 0 < amount && 2 * amount < w.amount
    ensures var rc := ReserveCredit(w.userId, amount, trxId, desc);
            && ReserveOne(db, rc, f1) == (db1, Reply(w.userId, f1, WalletCreditReserved(w.userId, trxId, amount, w.amount - amount)))
            && ReserveOne(db1, rc, f2) == (db2, Reply(w.userId, f2, WalletCreditReserved(w.userId, trxId, amount, w.amount - 2 * amount)))
            && db2.wallets == db.wallets[w.id.value := w.(amount := w.amount - 2 * amount)]
  {
    var rc := ReserveCredit(w.userId, amount, trxId, desc);
    DebitCheckMeansNoOverdraft(w.amount, amount);
    db1 := FoundAfterReservation(db, w, amount, trxId, desc, f1);
    assert ReserveOne(db, rc, f1) == (db1, Reply(w.userId, f1, WalletCreditReserved(w.userId, trxId, amount, w.amount - amount)));
    db2 := GrantedAgain(db1, w, amount, trxId, desc, f2);
    Seqs.OverwrittenUpdate(db.wallets, w.id.value, w.(amount := w.amount - amount), w.(amount := w.amount - 2 * amount));
  }

  /** A granted reservation followed by one the lowered balance cannot
      cover: the second is refused with that balance and writes nothing. */
  lemma GrantedThenRefused(db: Db, w: WalletEntity, a1: Long, a2: Long, trx1: string, trx2: string,
                           desc: string, f1: Fresh, f2: Fresh)
    requires ValidDb(db) && FindByUserId(db.wallets, w.userId) == Some(w)
    requires 0 < a1 <= w.amount && 0 < a2 && w.amount - a1 < a2
    ensures var w1 := w.(amount := w.amount - a1);
            var step1 := ReserveOne(db, ReserveCredit(w.userId, a1, trx1, desc), f1);
            var step2 := ReserveOne(step1.0, ReserveCredit(w.userId, a2, trx2, desc), f2);
            && step1.1.value.payload == WalletCreditReserved(w.userId, trx1, a1, w1.amount)
            && step2.1.value.payload == WalletCreditLimitExceeded(w.userId, trx2, w1.amount)
            && step2.0 == step1.0
            && step1.0.wallets == db.wallets[w.id.value := w1]
  {
    DebitCheckMeansNoOverdraft(w.amount, a1);
    var db1 := FoundAfterReservation(db, w, a1, trx1, desc, f1);
    DebitCheckMeansNoOverdraft(w.amount - a1, a2);
    ReserveOneOutcome(db1, ReserveCredit(w.userId, a2, trx2, desc), f2);
  }

  /** Two reservations for one user where only the first fits the balance:
      one CreditReserved, then one CreditLimitExceeded reporting the balance
      left by the first; the balance ends lowered by the first amount only. */
  lemma OnlyOneOfTwoFits(db: Db, w: WalletEntity, a1: Long, a2: Long, trx1: string, trx2: string,
                         desc: string, f1: Fresh, f2: Fresh)
    requires ValidDb(db) && FindByUserId(db.wallets, w.userId) == Some(w)
    requires 0 < a1 <= w.amount && 0 < a2 && w.amount - a1 < a2
    ensures var c1 := WalletCommandEvent(WalletReserveCredit(ReserveCredit(w.userId, a1, trx1, desc)));
            var c2 := WalletCommandEvent(WalletReserveCredit(ReserveCredit(w.userId, a2, trx2, desc)));
            var (db', replies) := Handle(db, [c1, c2], [f1, f2]);
            && replies[0].value.payload == WalletCreditReserved(w.userId, trx1, a1, w.amount - a1)
            && replies[1].value.payload == WalletCreditLimitExceeded(w.userId, trx2, w.amount - a1)
            && db'.wallets == db.wallets[w.id.value := w.(amount := w.amount - a1)]
  {
    var rc1 := ReserveCredit(w.userId, a1, trx1, desc);
    var rc2 := ReserveCredit(w.userId, a2, trx2, desc);
    var c1 := WalletCommandEvent(WalletReserveCredit(rc1));
    var c2 := WalletCommandEvent(WalletReserveCredit(rc2));
    assert ReserveOf(c1) == rc1 && ReserveOf(c2) == rc2;
    HandleTwo(db, c1, c2, f1, f2);
    GrantedThenRefused(db, w, a1, a2, trx1, trx2, desc, f1, f2);
  }
}
