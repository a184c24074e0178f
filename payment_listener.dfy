/** `PaymentEventListener.receive`: a batch of payment topic records is
    decoded, routed by `Dispatch`, each routed group handed to its handler
    bean, and the batch acknowledged once every group has been handled. An
    exception anywhere is rethrown before the acknowledgement, so the
    container redelivers the batch. */
module PaymentEventListener {
  import opened Wrappers
  import opened Seqs
  import opened Tables
  import opened Ledger
  import opened WalletLedger
  import opened Dispatch
  import opened PaymentHandling
  import PaymentHandler

  /** The beans of `handler.payment.PaymentEventHandler` the listener is
      given: the idempotent payment change handler is the only one. */
  datatype PaymentEventHandlerBean = PaymentChangeEventHandler

  /** `isHandle` of a bean. */
  function Accepts(h: PaymentEventHandlerBean, e: PaymentEvent): bool {
    match h
    case PaymentChangeEventHandler => IsHandle(e)
  }

  /** The `groupBy` key of an event: the position of the first bean that
      accepts it. */
  function RouteKey(handlers: seq<PaymentEventHandlerBean>): PaymentEvent -> Option<nat> {
    e => FirstAccepting(handlers, Accepts, e)
  }

  /** Why `receive` throws: a record the protobuf parser refuses, or an
      exception from a handler. */
  datatype ListenerError = Undecodable(index: nat) | HandlerFailed(cause: HandlerError)

  /** The `forEach` over the groups: a group no bean accepts is skipped, the
      others are handled in turn; the first failing group stops the batch
      with its own transaction rolled back and the groups before it
      committed. */
  function RunGroups(db: Db, events: seq<PaymentEvent>, draws: seq<Fresh>, groups: seq<(Option<nat>, seq<nat>)>)
    : (r: (Db, Outcome<HandlerError>))
    requires ValidDb(db) && |draws| == |events| && InBounds(groups, |events|)
    ensures ValidDb(r.0)
    decreases |groups|
  {
    if groups == [] then (db, Pass)
    else
      var handler := groups[0].0;
      var positions := groups[0].1;
      assert InBounds(groups[1..], |events|) by {
        assert forall i :: 0 <= i < |groups[1..]| ==> groups[1..][i] == groups[i + 1];
      }
      if handler.None? then RunGroups(db, events, draws, groups[1..])
      else
        match PaymentHandling.Handle(db, Pick(events, positions), Pick(draws, positions))
        case Failure(err) => (db, Fail(err))
        case Success(db1) => RunGroups(db1, events, draws, groups[1..])
  }

  /** `receive`, with `parse` standing for `PaymentEvent.parseFrom` and
      `draws[i]` for the fresh values the processing of record `i` draws. */
  function Receive(db: Db, handlers: seq<PaymentEventHandlerBean>, messages: seq<Bytes>,
                   parse: Bytes -> Option<PaymentEvent>, draws: seq<Fresh>): (r: (Db, Outcome<ListenerError>))
    requires ValidDb(db) && |draws| == |messages|
    ensures ValidDb(r.0)
    ensures (r.1.Fail? && r.1.error.Undecodable?) <==> exists i :: 0 <= i < |messages| && parse(messages[i]).None?
    ensures r.1.Fail? && r.1.error.Undecodable? ==>
              && r.0 == db && r.1.error.index < |messages| && parse(messages[r.1.error.index]).None?
              && forall i :: 0 <= i < r.1.error.index ==> parse(messages[i]).Some?
  {
    match DecodeAll(messages, parse)
    case Failure(i) => (db, Fail(Undecodable(i)))
    case Success(events) =>
      var run := RunGroups(db, events, draws, GroupBy(events, RouteKey(handlers)));
      var db1 := run.0;
      var outcome := run.1;
      (db1, if outcome.Pass? then Pass else Fail(HandlerFailed(outcome.error)))
  }

  // ----- properties

  /** Handling a list of groups split in two: the second part runs only if
      the first passed, on the tables the first committed; a failure in the
      second part keeps what the first committed. */
  lemma {:induction false} RunGroupsAppend(db: Db, events: seq<PaymentEvent>, draws: seq<Fresh>,
                                           g1: seq<(Option<nat>, seq<nat>)>, g2: seq<(Option<nat>, seq<nat>)>)
    requires ValidDb(db) && |draws| == |events| && InBounds(g1, |events|) && InBounds(g2, |events|)
    ensures InBounds(g1 + g2, |events|)
    ensures var first := RunGroups(db, events, draws, g1);
            RunGroups(db, events, draws, g1 + g2) ==
              if first.1.Fail? then first else RunGroups(first.0, events, draws, g2)
    decreases |g1|
  {
    assert InBounds(g1 + g2, |events|) by {
      forall i, m | 0 <= i < |g1 + g2| && 0 <= m < |(g1 + g2)[i].1| ensures (g1 + g2)[i].1[m] < |events| {
        if i < |g1| {
          assert (g1 + g2)[i] == g1[i];
        } else {
          assert (g1 + g2)[i] == g2[i - |g1|];
        }
      }
    }
    if g1 == [] {
      assert g1 + g2 == g2;
    } else {
      assert (g1 + g2)[1..] == g1[1..] + g2;
      assert InBounds(g1[1..], |events|) by {
        assert forall i :: 0 <= i < |g1[1..]| ==> g1[1..][i] == g1[i + 1];
      }
      var handler := g1[0].0;
      var positions := g1[0].1;
      if handler.None? {
        RunGroupsAppend(db, events, draws, g1[1..], g2);
      } else {
        var handled := PaymentHandling.Handle(db, Pick(events, positions), Pick(draws, positions));
        if handled.Success? {
          RunGroupsAppend(handled.value, events, draws, g1[1..], g2);
        }
      }
    }
  }

  /** Groups no bean accepts are skipped: the tables are left as they were
      and the batch passes. */
  lemma {:induction false} UnroutedGroupsAreSkipped(db: Db, events: seq<PaymentEvent>, draws: seq<Fresh>,
                                                    groups: seq<(Option<nat>, seq<nat>)>)
    requires ValidDb(db) && |draws| == |events| && InBounds(groups, |events|)
    requires forall i :: 0 <= i < |groups| ==> groups[i].0.None?
    ensures RunGroups(db, events, draws, groups) == (db, Pass)
    decreases |groups|
  {
    if groups != [] {
      assert InBounds(groups[1..], |events|) by {
        assert forall i :: 0 <= i < |groups[1..]| ==> groups[1..][i] == groups[i + 1];
      }
      assert groups[0].0.None?;
      UnroutedGroupsAreSkipped(db, events, draws, groups[1..]);
    }
  }

  /** A batch of decodable records none of which any bean accepts changes
      nothing and is acknowledged. */
  lemma UnacceptedBatchIsDropped(db: Db, handlers: seq<PaymentEventHandlerBean>, messages: seq<Bytes>,
                                 parse: Bytes -> Option<PaymentEvent>, draws: seq<Fresh>)
    requires ValidDb(db) && |draws| == |messages|
    requires forall i :: 0 <= i < |messages| ==> parse(messages[i]).Some?
    requires forall i, j :: 0 <= i < |messages| && 0 <= j < |handlers| ==> !Accepts(handlers[j], parse(messages[i]).value)
    ensures Receive(db, handlers, messages, parse, draws) == (db, Pass)
  {
    var events := DecodeAll(messages, parse).value;
    forall p, j | 0 <= p < |events| && 0 <= j < |handlers| ensures !Accepts(handlers[j], events[p]) {
      assert parse(messages[p]) == Some(events[p]);
    }
    NoGroupRouted(events, handlers);
    UnroutedGroupsAreSkipped(db, events, draws, GroupBy(events, RouteKey(handlers)));
  }

  /** Events no bean accepts all fall in groups without a handler. */
  lemma NoGroupRouted(events: seq<PaymentEvent>, handlers: seq<PaymentEventHandlerBean>)
    requires forall p, j :: 0 <= p < |events| && 0 <= j < |handlers| ==> !Accepts(handlers[j], events[p])
    ensures var groups := GroupBy(events, RouteKey(handlers));
            forall i :: 0 <= i < |groups| ==> groups[i].0.None?
  {
    var key := RouteKey(handlers);
    var groups := GroupBy(events, key);
    forall i | 0 <= i < |groups| ensures groups[i].0.None? {
      var ks := Keys(events, key);
      assert groups[i].0 == ks[i] && ks[i] in ks;
      var e :| e in events && key(e) == ks[i];
      var p :| 0 <= p < |events| && events[p] == e;
    }
  }

  /** With the beans the application has, a record is routed exactly when it
      carries a payment change. */
  lemma RoutedIffPaymentChange(events: seq<PaymentEvent>, p: nat)
    requires p < |events|
    ensures p in Positions(events, RouteKey([PaymentChangeEventHandler]), Some(0)) <==> IsHandle(events[p])
    ensures RouteKey([PaymentChangeEventHandler])(events[p]) != Some(0) ==>
              RouteKey([PaymentChangeEventHandler])(events[p]) == None
  {
  }

  /** The group keys of a batch, with the beans the application has, are the
      payment change handler's position or none. */
  lemma OnlyTwoKeys(events: seq<PaymentEvent>)
    ensures forall k :: k in Keys(events, RouteKey([PaymentChangeEventHandler])) ==> k == None || k == Some(0)
  {
    var key := RouteKey([PaymentChangeEventHandler]);
    forall k | k in Keys(events, key) ensures k == None || k == Some(0) {
      var e :| e in events && key(e) == k;
    }
  }

  /** The result of handing one group of positions to the payment change
      handler on its own. */
  function HandleGroup(db: Db, events: seq<PaymentEvent>, draws: seq<Fresh>, ps: seq<nat>): (r: (Db, Outcome<HandlerError>))
    requires ValidDb(db) && |draws| == |events| && forall m :: 0 <= m < |ps| ==> ps[m] < |events|
    ensures ValidDb(r.0)
    ensures r.1.Fail? ==> r.0 == db
    ensures ps == [] ==> r == (db, Pass)
  {
    var handled := PaymentHandling.Handle(db, Pick(events, ps), Pick(draws, ps));
    if handled.Success? then (handled.value, Pass) else (db, Fail(handled.error))
  }

  /** When one group is routed and every other group is not, the batch comes
      to that group's handling alone. */
  lemma RunOnlyRoutedGroup(db: Db, events: seq<PaymentEvent>, draws: seq<Fresh>, before: seq<(Option<nat>, seq<nat>)>,
                           g: (Option<nat>, seq<nat>), after: seq<(Option<nat>, seq<nat>)>)
    requires ValidDb(db) && |draws| == |events|
    requires InBounds(before, |events|) && InBounds([g], |events|) && InBounds(after, |events|)
    requires forall i :: 0 <= i < |before| ==> before[i].0.None?
    requires forall i :: 0 <= i < |after| ==> after[i].0.None?
    requires g.0.Some?
    ensures forall m :: 0 <= m < |g.1| ==> g.1[m] < |events|
    ensures RunGroups(db, events, draws, before + ([g] + after)) == HandleGroup(db, events, draws, g.1)
  {
    assert [g][0] == g;
    UnroutedGroupsAreSkipped(db, events, draws, before);
    RunGroupsAppend(db, events, draws, before, [g] + after);
    RunGroupsAppend(db, events, draws, [g], after);
    var handled := PaymentHandling.Handle(db, Pick(events, g.1), Pick(draws, g.1));
    if handled.Success? {
      var one: seq<(Option<nat>, seq<nat>)> := [g];
      assert one[1..] == [];
      UnroutedGroupsAreSkipped(handled.value, events, draws, after);
    }
  }

  /** The `forEach` over the groups, with the beans the application has: the
      events carrying a payment change, in batch order, go to the
      idempotent handler as one batch; the others are dropped. */
  lemma RunGroupsWithPaymentChangeHandler(db: Db, events: seq<PaymentEvent>, draws: seq<Fresh>)
    requires ValidDb(db) && |draws| == |events|
    ensures var key := RouteKey([PaymentChangeEventHandler]);
            RunGroups(db, events, draws, GroupBy(events, key)) == HandleGroup(db, events, draws, Positions(events, key, Some(0)))
  {
    var key := RouteKey([PaymentChangeEventHandler]);
    var ps := Positions(events, key, Some(0));
    var routed, before, after := SplitAtGroup(events, key, Some(0));
    OnlyTwoKeys(events);
    if routed {
      assert InBounds([(Some(0), ps)], |events|) by {
        assert [(Some(0), ps)][0] == (Some(0), ps);
      }
      RunOnlyRoutedGroup(db, events, draws, before, (Some(0), ps), after);
    } else {
      UnroutedGroupsAreSkipped(db, events, draws, before);
      assert Pick(events, ps) == [] && Pick(draws, ps) == [];
    }
  }

  /** What `receive` does with the beans the application has: the records
      carrying a payment change, in batch order, go to the idempotent
      handler as one batch, the others are dropped, and a handler failure
      leaves the tables as they were. */
  lemma ReceiveWithPaymentChangeHandler(db: Db, messages: seq<Bytes>, parse: Bytes -> Option<PaymentEvent>,
                                        draws: seq<Fresh>)
    requires ValidDb(db) && |draws| == |messages|
    requires DecodeAll(messages, parse).Success?
    ensures var events := DecodeAll(messages, parse).value;
            var ps := Positions(events, RouteKey([PaymentChangeEventHandler]), Some(0));
            var handled := PaymentHandling.Handle(db, Pick(events, ps), Pick(draws, ps));
            Receive(db, [PaymentChangeEventHandler], messages, parse, draws) ==
              if handled.Success? then (handled.value, Pass) else (db, Fail(HandlerFailed(handled.error)))
  {
    RunGroupsWithPaymentChangeHandler(db, DecodeAll(messages, parse).value, draws);
  }

  /** Redelivering a batch the listener acknowledged changes nothing and is
      acknowledged again, whatever fresh values the second delivery draws:
      every event it routes is already in the event log. */
  lemma RedeliveryIsNoOp(db: Db, messages: seq<Bytes>, parse: Bytes -> Option<PaymentEvent>,
                         draws: seq<Fresh>, draws2: seq<Fresh>)
    requires ValidDb(db) && |draws| == |messages| && |draws2| == |messages|
    requires Receive(db, [PaymentChangeEventHandler], messages, parse, draws).1 == Pass
    ensures var db1 := Receive(db, [PaymentChangeEventHandler], messages, parse, draws).0;
            Receive(db1, [PaymentChangeEventHandler], messages, parse, draws2) == (db1, Pass)
  {
    var db1 := Receive(db, [PaymentChangeEventHandler], messages, parse, draws).0;
    var events := DecodeAll(messages, parse).value;
    var ps := Positions(events, RouteKey([PaymentChangeEventHandler]), Some(0));
    assert forall m :: 0 <= m < |ps| ==> ps[m] in ps;
    ReceiveWithPaymentChangeHandler(db, messages, parse, draws);
    ReceiveWithPaymentChangeHandler(db1, messages, parse, draws2);
    HandleIsIdempotent(db, Pick(events, ps), Pick(draws, ps), Pick(draws2, ps));
  }

  // ----- the listener as it runs

  /** `receive`: decode, route, hand each routed group to the payment
      handler, then acknowledge. The tables end as `Receive` computes; the
      batch is acknowledged exactly once when it passes and not at all when
      it throws; nothing is sent. */
  method ReceiveBatch(store: Store, ack: Acknowledgment, handlers: seq<PaymentEventHandlerBean>, messages: seq<Bytes>,
                      parse: Bytes -> Option<PaymentEvent>, draws: seq<Fresh>) returns (r: Outcome<ListenerError>)
    requires store.Valid() && |draws| == |messages|
    modifies store, ack
    ensures store.Valid()
    ensures (store.State(), r) == Receive(old(store.State()), handlers, messages, parse, draws)
    ensures ack.acknowledged == old(ack.acknowledged) + (if r.Pass? then 1 else 0)
    ensures store.replies == old(store.replies) && store.published == old(store.published)
  {
    var decoded := DecodeAll(messages, parse);
    if decoded.Failure? {
      return Fail(Undecodable(decoded.error));
    }
    var events := decoded.value;
    var groups := GroupBy(events, RouteKey(handlers));
    ghost var spec := RunGroups(store.State(), events, draws, groups);
    var i := 0;
    while i < |groups|
      invariant 0 <= i <= |groups|
      invariant store.Valid() && InBounds(groups[i..], |events|)
      invariant RunGroups(store.State(), events, draws, groups[i..]) == spec
      invariant ack.acknowledged == old(ack.acknowledged)
      invariant store.replies == old(store.replies) && store.published == old(store.published)
    {
      var (handler, positions) := groups[i];
      assert groups[i..][1..] == groups[i + 1..];
      if handler.Some? {
        var handled := PaymentHandler.Handle(store, Pick(events, positions), Pick(draws, positions));
        if handled.Fail? {
          return Fail(HandlerFailed(handled.error));
        }
      }
      i := i + 1;
    }
    ack.Acknowledge();
    r := Pass;
  }
}
