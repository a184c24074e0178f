/** `WalletCommandEventListener.receive`: a batch of wallet command records
    is decoded, routed by `Dispatch`, each routed group handed to its
    handler bean, and the batch acknowledged once every group has been
    handled. A record the parser refuses is rethrown before the
    acknowledgement and before any handler runs. */
module WalletCommandEventListener {
  import opened Wrappers
  import opened Seqs
  import opened Entities
  import opened Tables
  import opened Ledger
  import opened WalletLedger
  import opened Dispatch
  import opened CreditReservation
  import ReserveCreditHandler
  import Uuids

  /** The beans of `WalletCommandEventHandler` the listener is given: the
      credit reservation handler is the only one. */
  datatype WalletCommandEventHandlerBean = WalletReserveCreditCommandHandler

  /** `isHandle` of a bean. */
  function Accepts(h: WalletCommandEventHandlerBean, c: WalletCommandEvent): bool {
    match h
    case WalletReserveCreditCommandHandler => IsHandle(c)
  }

  /** The `groupBy` key of a command: the position of the first bean that
      accepts it. */
  function RouteKey(handlers: seq<WalletCommandEventHandlerBean>): WalletCommandEvent -> Option<nat> {
    c => FirstAccepting(handlers, Accepts, c)
  }

  type Replies = seq<ProducerRecord<WalletReplyEvent>>

  /** The `forEach` over the groups: a group no bean accepts is skipped, the
      others are handled in turn, their replies sent in that order. */
  function RunGroups(db: Db, commands: seq<WalletCommandEvent>, draws: seq<Fresh>,
                     groups: seq<(Option<nat>, seq<nat>)>): (r: (Db, Replies))
    requires ValidDb(db) && |draws| == |commands| && InBounds(groups, |commands|)
    ensures ValidDb(r.0)
    decreases |groups|
  {
    if groups == [] then (db, [])
    else
      assert InBounds(groups[1..], |commands|) by {
        assert forall i :: 0 <= i < |groups[1..]| ==> groups[1..][i] == groups[i + 1];
      }
      if groups[0].0.None? then RunGroups(db, commands, draws, groups[1..])
      else
        var positions := groups[0].1;
        var handled := CreditReservation.Handle(db, Pick(commands, positions), Pick(draws, positions));
        var rest := RunGroups(handled.0, commands, draws, groups[1..]);
        (rest.0, handled.1 + rest.1)
  }

  /** What a delivery of a batch comes to: the tables, the replies sent, and
      whether `receive` returned (`Pass`) or threw on the record at a given
      position (`Fail`). */
  datatype Received = Received(db: Db, replies: Replies, outcome: Outcome<nat>)

  /** `receive`, with `parse` standing for `WalletCommandEvent.parseFrom`
      and `draws[i]` for the fresh values the processing of record `i`
      draws. */
  function Receive(db: Db, handlers: seq<WalletCommandEventHandlerBean>, messages: seq<Bytes>,
                   parse: Bytes -> Option<WalletCommandEvent>, draws: seq<Fresh>): (r: Received)
    requires ValidDb(db) && |draws| == |messages|
    ensures ValidDb(r.db)
    ensures r.outcome.Fail? <==> exists i :: 0 <= i < |messages| && parse(messages[i]).None?
    ensures r.outcome.Fail? ==> r.db == db && r.replies == [] && r.outcome.error < |messages| &&
                                parse(messages[r.outcome.error]).None?
  {
    match DecodeAll(messages, parse)
    case Failure(i) => Received(db, [], Fail(i))
    case Success(commands) =>
      var run := RunGroups(db, commands, draws, GroupBy(commands, RouteKey(handlers)));
      var db1 := run.0;
      var replies := run.1;
      Received(db1, replies, Pass)
  }

  // ----- properties

  /** Handling a list of groups split in two: the second part runs on the
      tables the first left, and its replies follow the first part's. */
  lemma {:induction false} RunGroupsAppend(db: Db, commands: seq<WalletCommandEvent>, draws: seq<Fresh>,
                                           g1: seq<(Option<nat>, seq<nat>)>, g2: seq<(Option<nat>, seq<nat>)>)
    requires ValidDb(db) && |draws| == |commands| && InBounds(g1, |commands|) && InBounds(g2, |commands|)
    ensures InBounds(g1 + g2, |commands|)
    ensures var first := RunGroups(db, commands, draws, g1);
            var second := RunGroups(first.0, commands, draws, g2);
            RunGroups(db, commands, draws, g1 + g2) == (second.0, first.1 + second.1)
    decreases |g1|
  {
    assert InBounds(g1 + g2, |commands|) by {
      forall i, m | 0 <= i < |g1 + g2| && 0 <= m < |(g1 + g2)[i].1| ensures (g1 + g2)[i].1[m] < |commands| {
        if i < |g1| {
          assert (g1 + g2)[i] == g1[i];
        } else {
          assert (g1 + g2)[i] == g2[i - |g1|];
        }
      }
    }
    if g1 == [] {
      assert g1 + g2 == g2;
      assert [] + RunGroups(db, commands, draws, g2).1 == RunGroups(db, commands, draws, g2).1;
    } else {
      assert (g1 + g2)[1..] == g1[1..] + g2;
      assert InBounds(g1[1..], |commands|) by {
        assert forall i :: 0 <= i < |g1[1..]| ==> g1[1..][i] == g1[i + 1];
      }
      if g1[0].0.None? {
        RunGroupsAppend(db, commands, draws, g1[1..], g2);
      } else {
        var positions := g1[0].1;
        var handled := CreditReservation.Handle(db, Pick(commands, positions), Pick(draws, positions));
        RunGroupsAppend(handled.0, commands, draws, g1[1..], g2);
        var rest := RunGroups(handled.0, commands, draws, g1[1..]);
        var second := RunGroups(rest.0, commands, draws, g2);
        AppendAssoc(handled.1, rest.1, second.1);
      }
    }
  }

  /** Groups no bean accepts are skipped: the tables are left as they were
      and nothing is sent. */
  lemma {:induction false} UnroutedGroupsAreSkipped(db: Db, commands: seq<WalletCommandEvent>, draws: seq<Fresh>,
                                                    groups: seq<(Option<nat>, seq<nat>)>)
    requires ValidDb(db) && |draws| == |commands| && InBounds(groups, |commands|)
    requires forall i :: 0 <= i < |groups| ==> groups[i].0.None?
    ensures RunGroups(db, commands, draws, groups) == (db, [])
    decreases |groups|
  {
    if groups != [] {
      assert InBounds(groups[1..], |commands|) by {
        assert forall i :: 0 <= i < |groups[1..]| ==> groups[1..][i] == groups[i + 1];
      }
      assert groups[0].0.None?;
      UnroutedGroupsAreSkipped(db, commands, draws, groups[1..]);
    }
  }

  /** The group keys of a batch, with the beans the application has, are the
      reservation handler's position or none. */
  lemma OnlyTwoKeys(commands: seq<WalletCommandEvent>)
    ensures forall k :: k in Keys(commands, RouteKey([WalletReserveCreditCommandHandler])) ==> k == None || k == Some(0)
  {
    var key := RouteKey([WalletReserveCreditCommandHandler]);
    forall k | k in Keys(commands, key) ensures k == None || k == Some(0) {
      var c :| c in commands && key(c) == k;
    }
  }

  /** When one group is routed and every other group is not, the batch comes
      to that group's handling alone. */
  lemma RunOnlyRoutedGroup(db: Db, commands: seq<WalletCommandEvent>, draws: seq<Fresh>,
                           before: seq<(Option<nat>, seq<nat>)>, g: (Option<nat>, seq<nat>),
                           after: seq<(Option<nat>, seq<nat>)>)
    requires ValidDb(db) && |draws| == |commands|
    requires InBounds(before, |commands|) && InBounds([g], |commands|) && InBounds(after, |commands|)
    requires forall i :: 0 <= i < |before| ==> before[i].0.None?
    requires forall i :: 0 <= i < |after| ==> after[i].0.None?
    requires g.0.Some?
    ensures forall m :: 0 <= m < |g.1| ==> g.1[m] < |commands|
    ensures RunGroups(db, commands, draws, before + ([g] + after)) ==
              CreditReservation.Handle(db, Pick(commands, g.1), Pick(draws, g.1))
  {
    var one: seq<(Option<nat>, seq<nat>)> := [g];
    assert one[0] == g && one[1..] == [];
    var handled := CreditReservation.Handle(db, Pick(commands, g.1), Pick(draws, g.1));
    assert RunGroups(handled.0, commands, draws, []) == (handled.0, []);
    AppendAssoc(handled.1, [], []);
    assert RunGroups(db, commands, draws, one) == handled;
    UnroutedGroupsAreSkipped(handled.0, commands, draws, after);
    RunGroupsAppend(db, commands, draws, one, after);
    assert RunGroups(db, commands, draws, one + after) == handled;
    UnroutedGroupsAreSkipped(db, commands, draws, before);
    RunGroupsAppend(db, commands, draws, before, one + after);
    AppendAssoc([], handled.1, []);
  }

  /** The `forEach` over the groups, with the beans the application has: the
      credit reservation commands, in batch order, go to the reservation
      handler as one batch; the other commands are dropped. */
  lemma RunGroupsWithReserveHandler(db: Db, commands: seq<WalletCommandEvent>, draws: seq<Fresh>)
    requires ValidDb(db) && |draws| == |commands|
    ensures var key := RouteKey([WalletReserveCreditCommandHandler]);
            var ps := Positions(commands, key, Some(0));
            RunGroups(db, commands, draws, GroupBy(commands, key)) ==
              CreditReservation.Handle(db, Pick(commands, ps), Pick(draws, ps))
  {
    var key := RouteKey([WalletReserveCreditCommandHandler]);
    var ps := Positions(commands, key, Some(0));
    var routed, before, after := SplitAtGroup(commands, key, Some(0));
    OnlyTwoKeys(commands);
    if routed {
      assert InBounds([(Some(0), ps)], |commands|) by {
        assert [(Some(0), ps)][0] == (Some(0), ps);
      }
      RunOnlyRoutedGroup(db, commands, draws, before, (Some(0), ps), after);
    } else {
      UnroutedGroupsAreSkipped(db, commands, draws, before);
      assert Pick(commands, ps) == [] && Pick(draws, ps) == [];
    }
  }

  /** What `receive` does with the beans the application has: the credit
      reservation commands, in batch order, are handled as one batch and
      acknowledged; the other commands are dropped. */
  lemma ReceiveWithReserveHandler(db: Db, messages: seq<Bytes>, parse: Bytes -> Option<WalletCommandEvent>,
                                  draws: seq<Fresh>)
    requires ValidDb(db) && |draws| == |messages|
    requires DecodeAll(messages, parse).Success?
    ensures var commands := DecodeAll(messages, parse).value;
            var ps := Positions(commands, RouteKey([WalletReserveCreditCommandHandler]), Some(0));
            var handled := CreditReservation.Handle(db, Pick(commands, ps), Pick(draws, ps));
            Receive(db, [WalletReserveCreditCommandHandler], messages, parse, draws) ==
              Received(handled.0, handled.1, Pass)
  {
    RunGroupsWithReserveHandler(db, DecodeAll(messages, parse).value, draws);
  }

  /** Every credit reservation record of a decodable batch is answered by
      exactly one reply, in batch order, keyed by its user and carrying its
      user and transaction ids; records holding another command get none. */
  lemma EveryReservationAnswered(db: Db, messages: seq<Bytes>, parse: Bytes -> Option<WalletCommandEvent>,
                                 draws: seq<Fresh>)
    requires ValidDb(db) && |draws| == |messages|
    requires DecodeAll(messages, parse).Success?
    ensures var commands := DecodeAll(messages, parse).value;
            var ps := Positions(commands, RouteKey([WalletReserveCreditCommandHandler]), Some(0));
            var replies := Receive(db, [WalletReserveCreditCommandHandler], messages, parse, draws).replies;
            && (forall p: nat :: p in ps <==> p < |commands| && IsHandle(commands[p]))
            && |replies| == |ps|
            && forall m :: 0 <= m < |ps| ==>
                 && replies[m].key == commands[ps[m]].payload.command.userId
                 && replies[m].value.payload.trxId == commands[ps[m]].payload.command.trxId
                 && replies[m].value.eventId == Uuids.ToString(draws[ps[m]].replyId)
  {
    var commands := DecodeAll(messages, parse).value;
    var ps := Positions(commands, RouteKey([WalletReserveCreditCommandHandler]), Some(0));
    ReceiveWithReserveHandler(db, messages, parse, draws);
    EveryCommandAnswered(db, Pick(commands, ps), Pick(draws, ps));
    forall m | 0 <= m < |ps| ensures IsHandle(commands[ps[m]]) {
      assert ps[m] in ps;
    }
  }

  // ----- the listener as it runs

  /** The groups from position `i` are the handling of group `i` followed
      by the groups from `i + 1`. */
  lemma RunGroupsStep(db: Db, commands: seq<WalletCommandEvent>, draws: seq<Fresh>,
                      groups: seq<(Option<nat>, seq<nat>)>, i: nat)
    requires ValidDb(db) && |draws| == |commands| && InBounds(groups, |commands|) && i < |groups|
    ensures InBounds(groups[i..], |commands|) && InBounds(groups[i + 1..], |commands|)
    ensures forall m :: 0 <= m < |groups[i].1| ==> groups[i].1[m] < |commands|
    ensures groups[i].0.None? ==>
              RunGroups(db, commands, draws, groups[i..]) == RunGroups(db, commands, draws, groups[i + 1..])
    ensures groups[i].0.Some? ==>
              var handled := CreditReservation.Handle(db, Pick(commands, groups[i].1), Pick(draws, groups[i].1));
              var rest := RunGroups(handled.0, commands, draws, groups[i + 1..]);
              RunGroups(db, commands, draws, groups[i..]) == (rest.0, handled.1 + rest.1)
  {
    var tail := groups[i..];
    assert InBounds(tail, |commands|) by {
      assert forall j :: 0 <= j < |tail| ==> tail[j] == groups[i + j];
    }
    assert tail[0] == groups[i] && tail[1..] == groups[i + 1..];
  }

  /** The loop's invariant after `i` groups: the replies sent so far follow
      `base`, and the remaining groups run on the current tables end where
      all the groups run on the initial tables do. */
  ghost predicate GroupsProgress(store: Store, commands: seq<WalletCommandEvent>, draws: seq<Fresh>,
                                 groups: seq<(Option<nat>, seq<nat>)>, i: nat,
                                 target: (Db, Replies), base: Replies, sent: Replies)
    reads store
  {
    && |draws| == |commands| && InBounds(groups, |commands|) && i <= |groups|
    && store.Valid() && InBounds(groups[i..], |commands|)
    && store.replies == base + sent
    && target == (RunGroups(store.State(), commands, draws, groups[i..]).0,
                  sent + RunGroups(store.State(), commands, draws, groups[i..]).1)
  }

  /** One pass of the `forEach`: group `i` handed to the reservation
      handler when a bean accepts it, skipped otherwise. */
  method HandleGroupAt(store: Store, commands: seq<WalletCommandEvent>, draws: seq<Fresh>,
                       groups: seq<(Option<nat>, seq<nat>)>, i: nat,
                       ghost target: (Db, Replies), ghost base: Replies, ghost sent: Replies)
    returns (ghost sentNow: Replies)
    requires i < |groups| && GroupsProgress(store, commands, draws, groups, i, target, base, sent)
    modifies store
    ensures GroupsProgress(store, commands, draws, groups, i + 1, target, base, sentNow)
    ensures store.published == old(store.published)
  {
    RunGroupsStep(store.State(), commands, draws, groups, i);
    sentNow := sent;
    if groups[i].0.Some? {
      var positions := groups[i].1;
      ghost var handled := CreditReservation.Handle(store.State(), Pick(commands, positions), Pick(draws, positions));
      ghost var rest := RunGroups(handled.0, commands, draws, groups[i + 1..]);
      AppendAssoc(sent, handled.1, rest.1);
      AppendAssoc(base, sent, handled.1);
      ReserveCreditHandler.Handle(store, Pick(commands, positions), Pick(draws, positions));
      sentNow := sent + handled.1;
    }
  }

  /** The `forEach`: each routed group handed to the reservation handler in
      turn; the tables end and the replies are sent as `RunGroups`
      computes. */
  method HandleGroups(store: Store, commands: seq<WalletCommandEvent>, draws: seq<Fresh>,
                      groups: seq<(Option<nat>, seq<nat>)>)
    requires store.Valid() && |draws| == |commands| && InBounds(groups, |commands|)
    modifies store
    ensures store.Valid()
    ensures var spec := RunGroups(old(store.State()), commands, draws, groups);
            store.State() == spec.0 && store.replies == old(store.replies) + spec.1
    ensures store.published == old(store.published)
  {
    ghost var target := RunGroups(store.State(), commands, draws, groups);
    ghost var base := store.replies;
    ghost var sent: Replies := [];
    assert groups[0..] == groups && sent + target.1 == target.1;
    var i := 0;
    while i < |groups|
      invariant GroupsProgress(store, commands, draws, groups, i, target, base, sent)
      invariant store.published == old(store.published)
    {
      sent := HandleGroupAt(store, commands, draws, groups, i, target, base, sent);
      i := i + 1;
    }
    assert groups[i..] == [];
    AppendAssoc(sent, [], []);
  }

  /** `receive`: decode, route, hand each routed group to the reservation
      handler, then acknowledge. The tables and the replies sent end as
      `Receive` computes; the batch is acknowledged exactly once when it
      passes and not at all when a record cannot be decoded. */
  method ReceiveBatch(store: Store, ack: Acknowledgment, handlers: seq<WalletCommandEventHandlerBean>,
                      messages: seq<Bytes>, parse: Bytes -> Option<WalletCommandEvent>, draws: seq<Fresh>)
    returns (r: Outcome<nat>)
    requires store.Valid() && |draws| == |messages|
    modifies store, ack
    ensures store.Valid()
    ensures var spec := Receive(old(store.State()), handlers, messages, parse, draws);
            store.State() == spec.db && store.replies == old(store.replies) + spec.replies && r == spec.outcome
    ensures ack.acknowledged == old(ack.acknowledged) + (if r.Pass? then 1 else 0)
    ensures store.published == old(store.published)
  {
    var decoded := DecodeAll(messages, parse);
    if decoded.Failure? {
      AppendAssoc(store.replies, [], []);
      return Fail(decoded.error);
    }
    HandleGroups(store, decoded.value, draws, GroupBy(decoded.value, RouteKey(handlers)));
    ack.Acknowledge();
    r := Pass;
  }
}
