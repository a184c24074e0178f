/** `WalletReserveCreditCommandHandler.handle` as the source runs it: one
    loop over the batch inside one transaction, each command looked up,
    debited through the wallet service and answered on the command response
    topic before the next one is read. */
module ReserveCreditHandler {
  import opened Wrappers
  import opened Entities
  import opened Tables
  import opened Ledger
  import opened WalletLedger
  import opened CreditReservation
  import WalletService

  /** One pass of the loop: the lookup, the debit through the wallet service
      and the reply the outcome calls for; the reply is returned, not yet
      sent. */
  method ReserveOne(store: Store, reserve: ReserveCredit, f: Fresh) returns (reply: ProducerRecord<WalletReplyEvent>)
    requires store.Valid()
    modifies store
    ensures store.Valid()
    ensures (store.State(), reply) == CreditReservation.ReserveOne(old(store.State()), reserve, f)
    ensures store.replies == old(store.replies) && store.published == old(store.published)
  {
    var wallet := FindByUserId(store.wallets, reserve.userId);
    if wallet.None? {
      return Reply(reserve.userId, f, WalletUserNotFound(reserve.userId, reserve.trxId));
    }
    var debited := WalletService.DecreaseWalletAmount(store, wallet.value.id.value, reserve.amount,
                                                      reserve.description, f);
    if debited.Success? {
      reply := Reply(reserve.userId, f, WalletCreditReserved(reserve.userId, reserve.trxId, reserve.amount,
                                                              debited.value.value.amount));
    } else {
      reply := Reply(reserve.userId, f, WalletCreditLimitExceeded(reserve.userId, reserve.trxId, wallet.value.amount));
    }
  }

  /** The rest of the batch from position `i` is one pass of the loop
      followed by the rest from `i + 1`. */
  lemma HandleStep(db: Db, commands: seq<WalletCommandEvent>, draws: seq<Fresh>, i: nat)
    requires ValidDb(db) && |draws| == |commands| && i < |commands|
    ensures var step := CreditReservation.ReserveOne(db, ReserveOf(commands[i]), draws[i]);
            var rest := CreditReservation.Handle(step.0, commands[i + 1..], draws[i + 1..]);
            CreditReservation.Handle(db, commands[i..], draws[i..]) == (rest.0, [step.1] + rest.1)
  {
    HandleCons(db, commands[i..], draws[i..]);
    assert commands[i..][1..] == commands[i + 1..] && draws[i..][1..] == draws[i + 1..];
  }

  /** The loop's invariant after `i` commands: the replies sent so far
      follow `base`, and the rest of the batch run on the current tables ends
      where the whole batch run on the initial tables does. */
  ghost predicate Progress(store: Store, commands: seq<WalletCommandEvent>, draws: seq<Fresh>, i: nat,
                           target: (Db, seq<ProducerRecord<WalletReplyEvent>>),
                           base: seq<ProducerRecord<WalletReplyEvent>>, sent: seq<ProducerRecord<WalletReplyEvent>>)
    reads store
  {
    && i <= |commands| == |draws|
    && store.Valid()
    && store.replies == base + sent
    && target == (CreditReservation.Handle(store.State(), commands[i..], draws[i..]).0,
                  sent + CreditReservation.Handle(store.State(), commands[i..], draws[i..]).1)
  }

  /** One pass of the loop: reserve for command `i` and send its reply. */
  method HandleAt(store: Store, commands: seq<WalletCommandEvent>, draws: seq<Fresh>, i: nat,
                  ghost target: (Db, seq<ProducerRecord<WalletReplyEvent>>),
                  ghost base: seq<ProducerRecord<WalletReplyEvent>>, ghost sent: seq<ProducerRecord<WalletReplyEvent>>)
    returns (ghost sentNow: seq<ProducerRecord<WalletReplyEvent>>)
    requires i < |commands| && Progress(store, commands, draws, i, target, base, sent)
    modifies store
    ensures Progress(store, commands, draws, i + 1, target, base, sentNow)
    ensures store.published == old(store.published)
  {
    HandleStep(store.State(), commands, draws, i);
    var reply := ReserveOne(store, ReserveOf(commands[i]), draws[i]);
    ghost var rest := CreditReservation.Handle(store.State(), commands[i + 1..], draws[i + 1..]);
    assert sent + ([reply] + rest.1) == (sent + [reply]) + rest.1;
    store.SendReply(reply);
    sentNow := sent + [reply];
    assert store.replies == base + sentNow;
  }

  /** `handle`: the tables end as `CreditReservation.Handle` computes and the
      replies it computes are sent, in order, after those already sent; the
      wallet event topic is not written to. */
  method Handle(store: Store, commands: seq<WalletCommandEvent>, draws: seq<Fresh>)
    requires store.Valid() && |draws| == |commands|
    modifies store
    ensures store.Valid()
    ensures var spec := CreditReservation.Handle(old(store.State()), commands, draws);
            store.State() == spec.0 && store.replies == old(store.replies) + spec.1
    ensures store.published == old(store.published)
  {
    ghost var target := CreditReservation.Handle(store.State(), commands, draws);
    ghost var base := store.replies;
    ghost var sent: seq<ProducerRecord<WalletReplyEvent>> := [];
    assert commands[0..] == commands && draws[0..] == draws;
    assert sent + target.1 == target.1;
    var i := 0;
    while i < |commands|
      invariant Progress(store, commands, draws, i, target, base, sent)
      invariant store.published == old(store.published)
    {
      sent := HandleAt(store, commands, draws, i, target, base, sent);
      i := i + 1;
    }
    assert commands[i..] == [] && draws[i..] == [];
    assert sent + [] == sent;
  }
}
