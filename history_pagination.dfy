// Keyset pagination over `wallet_history`: the first-page query, the
// next-page query driven by a continuation token, and the criteria
// predicates both build. The query is a filter of the table by a conjunction
// of predicates, an ORDER BY on two columns and a cut at `limit + 1` rows;
// what `createPage` makes of the rows is outside the model, so a query
// returns the arguments it hands to `createPage`.

module HistoryPagination {
  import opened Wrappers
  import opened Jvm
  import opened Uuids
  import opened Entities
  import Seqs
  import Ledger

  const OCCURRED_AT_FROM_PARAM: string := "occurred_at_from"
  const OCCURRED_AT_TO_PARAM: string := "occurred_at_to"

  /** The decoded continuation token. Its key parameters carry the bounds of
      the first page; the model keeps the bound itself where the source keeps
      its `Timestamp` text. */
  datatype ContinuationToken = ContinuationToken(
    keyParams: Option<map<string, Time>>,
    timestamp: Long,
    id: string)

  /** The criteria predicates the two queries build. The `createdAt` ones name
      an attribute `WalletHistoryEntity` does not have. */
  datatype Predicate =
    | Conjunction
    | OccurredAtAtLeast(bound: Time)
    | OccurredAtAtMost(bound: Time)
    | CreatedAtAtLeast(bound: Time)
    | CreatedAtAtMost(bound: Time)
    | WalletIdAbove(id: Uuid)
    | AllOf(left: Predicate, right: Predicate)

  datatype QueryError =
    | UnknownAttribute(name: string)
    | InvalidUuid(text: string)
    | BadTimestamp(cause: DateTimeError)
    | NegativeMaxResults(maxResults: Int)

  /** What a query hands to `createPage`: the rows, the token, the key
      parameters and the page size. */
  datatype CreatePageCall = CreatePageCall(
    entities: seq<HistoryRecord>,
    token: Option<ContinuationToken>,
    keyParams: Option<map<string, Time>>,
    size: Int)

  // ----- predicates

  /** A predicate the criteria API can build against the entity's attributes. */
  predicate Resolvable(p: Predicate) {
    match p
    case CreatedAtAtLeast(_) => false
    case CreatedAtAtMost(_) => false
    case AllOf(a, b) => Resolvable(a) && Resolvable(b)
    case _ => true
  }

  predicate Holds(p: Predicate, row: HistoryRecord)
    requires Resolvable(p)
  {
    match p
    case Conjunction => true
    case OccurredAtAtLeast(t) => row.occurredAt >= t
    case OccurredAtAtMost(t) => row.occurredAt <= t
    case WalletIdAbove(id) => row.walletId > id
    case AllOf(a, b) => Holds(a, row) && Holds(b, row)
    case _ => false
  }

  predicate AllResolvable(preds: seq<Predicate>) {
    forall i :: 0 <= i < |preds| ==> Resolvable(preds[i])
  }

  predicate AllHold(preds: seq<Predicate>, row: HistoryRecord)
    requires AllResolvable(preds)
  {
    forall i :: 0 <= i < |preds| ==> Holds(preds[i], row)
  }

  /** Building the query: the first predicate naming a missing attribute
      raises, as `root.get` does. */
  function Resolve(preds: seq<Predicate>): (r: Outcome<QueryError>)
    ensures r.Pass? <==> AllResolvable(preds)
    ensures r.Fail? ==> r.error == UnknownAttribute("createdAt")
  {
    if preds == [] then Pass
    else if !Resolvable(preds[0]) then Fail(UnknownAttribute("createdAt"))
    else
      var rest := Resolve(preds[1..]);
      assert forall i :: 1 <= i < |preds| ==> preds[i] == preds[1..][i - 1];
      rest
  }

  /** `createdAtFromPredicate(cb, root, from: LocalDateTime?)`: occurredAt at
      or after `from`, the epoch when no bound is given. */
  function OccurredAtFromPredicate(from: Option<Time>): (p: Predicate)
    ensures Resolvable(p)
    ensures forall row :: Holds(p, row) <==> row.occurredAt >= (if from.Some? then from.value else 0)
  {
    OccurredAtAtLeast(if from.Some? then from.value else 0)
  }

  /** `createdAtToPredicate(cb, root, to: LocalDateTime?)`: occurredAt at or
      before `to`, always true when no bound is given. */
  function OccurredAtToPredicate(to: Option<Time>): (p: Predicate)
    ensures Resolvable(p)
    ensures forall row :: Holds(p, row) <==> to.None? || row.occurredAt <= to.value
  {
    if to.Some? then OccurredAtAtMost(to.value) else Conjunction
  }

  /** `createdAtFromPredicate(cb, root, from: String?)`: a lower bound on the
      missing `createdAt` attribute, always true when no bound is given. */
  function CreatedAtFromPredicate(from: Option<Time>): (p: Predicate)
    ensures Resolvable(p) <==> from.None?
    ensures from.None? ==> forall row :: Holds(p, row)
  {
    if from.Some? then CreatedAtAtLeast(from.value) else Conjunction
  }

  /** `createdAtToPredicate(cb, root, to: String?)`: an upper bound on the
      missing `createdAt` attribute, always true when no bound is given. */
  function CreatedAtToPredicate(to: Option<Time>): (p: Predicate)
    ensures Resolvable(p) <==> to.None?
    ensures to.None? ==> forall row :: Holds(p, row)
  {
    if to.Some? then CreatedAtAtMost(to.value) else Conjunction
  }

  /** `continuationPredicate`: occurredAt at or after the token's epoch
      second, and the `walletId` column above the token's id. The epoch second
      must denote a `LocalDateTime`. */
  function ContinuationPredicate(fromTimestamp: Long, id: Uuid): (r: Result<Predicate, QueryError>)
    ensures r.Success? <==> LOCAL_DATE_TIME_MIN_SECOND <= fromTimestamp <= LOCAL_DATE_TIME_MAX_SECOND
    ensures r.Failure? ==> r.error == BadTimestamp(OfInstantSecond(fromTimestamp).error)
    ensures r.Success? ==> Resolvable(r.value)
    ensures r.Success? ==> forall row ::
              Holds(r.value, row) <==> EpochSecond(row.occurredAt) >= fromTimestamp && row.walletId > id
  {
    match OfInstantSecond(fromTimestamp)
    case Failure(e) => Failure(BadTimestamp(e))
    case Success(timestamp) =>
      CursorBounds(fromTimestamp, id);
      Success(AllOf(OccurredAtAtLeast(timestamp), WalletIdAbove(id)))
  }

  lemma CursorBounds(fromTimestamp: Long, id: Uuid)
    ensures forall row :: Holds(AllOf(OccurredAtAtLeast(fromTimestamp * NANOS_PER_SECOND), WalletIdAbove(id)), row)
              <==> EpochSecond(row.occurredAt) >= fromTimestamp && row.walletId > id
  {
    forall row: HistoryRecord
      ensures row.occurredAt >= fromTimestamp * NANOS_PER_SECOND <==> EpochSecond(row.occurredAt) >= fromTimestamp
    {
      SecondsBound(row.occurredAt, fromTimestamp);
    }
  }

  lemma SecondsBound(t: Time, s: int)
    ensures t >= s * NANOS_PER_SECOND <==> EpochSecond(t) >= s
  {
    var e := EpochSecond(t);
    if e >= s {
      assert e * NANOS_PER_SECOND >= s * NANOS_PER_SECOND;
    } else {
      assert (e + 1) * NANOS_PER_SECOND <= s * NANOS_PER_SECOND;
    }
  }

  // ----- ordering and the row cut

  /** An ORDER BY on two columns, ascending. */
  datatype SortKey = SortKey(major: int, minor: int)

  predicate KeyBelow(a: SortKey, b: SortKey) {
    a.major < b.major || (a.major == b.major && a.minor < b.minor)
  }

  predicate KeyAtMost(a: SortKey, b: SortKey) {
    !KeyBelow(b, a)
  }

  /** The first page's order: walletId, then occurredAt. */
  function FirstPageKey(row: HistoryRecord): SortKey {
    SortKey(row.walletId, row.occurredAt)
  }

  /** The next page's order: occurredAt, then the `walletId` column. */
  function NextPageKey(row: HistoryRecord): SortKey {
    SortKey(row.occurredAt, row.walletId)
  }

  predicate SortedBy(s: seq<HistoryRecord>, key: HistoryRecord -> SortKey) {
    forall i, j :: 0 <= i < j < |s| ==> KeyAtMost(key(s[i]), key(s[j]))
  }

  function Insert(x: HistoryRecord, s: seq<HistoryRecord>, key: HistoryRecord -> SortKey): (r: seq<HistoryRecord>)
    requires SortedBy(s, key)
    ensures SortedBy(r, key)
    ensures multiset(r) == multiset(s) + multiset{x}
  {
    if s == [] then [x]
    else if KeyAtMost(key(x), key(s[0])) then [x] + s
    else
      var rest := Insert(x, s[1..], key);
      assert s == [s[0]] + s[1..];
      InsertedAfterHead(x, s, key, rest);
      ConsSorted(s[0], rest, key);
      [s[0]] + rest
  }

  /** Every row of the insertion into the tail, `x` included, is ordered no
      earlier than the head when `x` is ordered after it. */
  lemma InsertedAfterHead(x: HistoryRecord, s: seq<HistoryRecord>, key: HistoryRecord -> SortKey,
                          rest: seq<HistoryRecord>)
    requires SortedBy(s, key) && s != [] && !KeyAtMost(key(x), key(s[0]))
    requires multiset(rest) == multiset(s[1..]) + multiset{x}
    ensures forall y :: y in rest ==> KeyAtMost(key(s[0]), key(y))
  {
    forall y | y in rest
      ensures KeyAtMost(key(s[0]), key(y))
    {
      assert y in multiset(rest);
      if y != x {
        assert y in multiset(s[1..]);
        var j :| 0 <= j < |s[1..]| && s[1..][j] == y;
        assert s[j + 1] == y;
      }
    }
  }

  /** A row ordered no later than every row of a sorted sequence can lead it. */
  lemma ConsSorted(y: HistoryRecord, rest: seq<HistoryRecord>, key: HistoryRecord -> SortKey)
    requires SortedBy(rest, key) && forall z :: z in rest ==> KeyAtMost(key(y), key(z))
    ensures SortedBy([y] + rest, key)
  {
    var r := [y] + rest;
    forall i, j | 0 <= i < j < |r|
      ensures KeyAtMost(key(r[i]), key(r[j]))
    {
      assert r[j] == rest[j - 1];
      if i > 0 {
        assert r[i] == rest[i - 1];
      } else {
        assert rest[j - 1] in rest;
      }
    }
  }

  /** The database's sort: an ordering of the rows by the key. */
  function SortBy(s: seq<HistoryRecord>, key: HistoryRecord -> SortKey): (r: seq<HistoryRecord>)
    ensures SortedBy(r, key)
    ensures multiset(r) == multiset(s)
  {
    if s == [] then []
    else
      assert s == [s[0]] + s[1..];
      Insert(s[0], SortBy(s[1..], key), key)
  }

  /** `setMaxResults(limit + 1)`: the sum wraps around as an `Int`, and a
      negative row limit is rejected. */
  function MaxResults(limit: Int): (r: Result<nat, QueryError>)
    ensures limit < INT_MAX ==> (r.Success? <==> limit >= -1)
    ensures limit < INT_MAX && r.Success? ==> r.value == limit + 1
    ensures limit == INT_MAX ==> r == Failure(NegativeMaxResults(INT_MIN))
  {
    var maxResults := WrapInt(limit + 1);
    if maxResults < 0 then Failure(NegativeMaxResults(maxResults)) else Success(maxResults)
  }

  /** Filter by every predicate, order by the key, keep at most
      `maxResults` rows. */
  function RunQuery(history: seq<HistoryRecord>, preds: seq<Predicate>, key: HistoryRecord -> SortKey,
                    maxResults: nat): (r: seq<HistoryRecord>)
    requires AllResolvable(preds)
    ensures |r| <= maxResults
    ensures SortedBy(r, key)
    ensures forall row :: row in r ==> row in history && AllHold(preds, row)
  {
    var admitted := Seqs.Filter(history, row => AllHold(preds, row));
    var ordered := SortBy(admitted, key);
    var page := ordered[..if maxResults < |ordered| then maxResults else |ordered|];
    PrefixRowsFrom(page, ordered, admitted);
    page
  }

  /** A prefix of a reordering holds only rows of the original. */
  lemma PrefixRowsFrom(page: seq<HistoryRecord>, ordered: seq<HistoryRecord>, pool: seq<HistoryRecord>)
    requires page <= ordered && multiset(ordered) == multiset(pool)
    ensures forall row :: row in page ==> row in pool
  {
    forall row | row in page
      ensures row in pool
    {
      assert row in ordered;
      assert row in multiset(pool);
    }
  }

  /** A keyset page of `size` rows over the rows of `pool` that `admits`
      accepts: ordered by the key, drawn from those rows, all of them when the
      page is not full, and when it is full every row ordered strictly before
      its last row. */
  ghost predicate IsKeysetPage(page: seq<HistoryRecord>, pool: seq<HistoryRecord>, admits: HistoryRecord -> bool,
                               key: HistoryRecord -> SortKey, size: nat)
  {
    && |page| <= size
    && SortedBy(page, key)
    && (forall row :: row in page ==> row in pool && admits(row))
    && (|page| < size ==> forall row :: row in pool && admits(row) ==> row in page)
    && (0 < size == |page| ==>
          forall row :: row in pool && admits(row) && KeyBelow(key(row), key(page[size - 1])) ==> row in page)
  }

  /** The first `n` rows of an ordering of `rows`: drawn from `rows`, all of
      them when `n` covers every row, and otherwise every row ordered strictly
      before the last one kept. */
  lemma {:induction false} PrefixOfOrdering(rows: seq<HistoryRecord>, ordered: seq<HistoryRecord>,
                                            key: HistoryRecord -> SortKey, n: nat)
    requires SortedBy(ordered, key) && multiset(ordered) == multiset(rows) && n <= |ordered|
    ensures forall row :: row in ordered[..n] ==> row in rows
    ensures n == |ordered| ==> forall row :: row in rows ==> row in ordered[..n]
    ensures 0 < n ==> forall row :: row in rows && KeyBelow(key(row), key(ordered[n - 1])) ==> row in ordered[..n]
  {
    var page := ordered[..n];
    forall row | row in page
      ensures row in rows
    {
      assert row in multiset(ordered);
    }
    forall row | row in rows
      ensures n == |ordered| ==> row in page
      ensures 0 < n ==> KeyAtMost(key(ordered[n - 1]), key(row)) || row in page
    {
      assert row in multiset(rows);
      assert row in ordered;
      var j :| 0 <= j < |ordered| && ordered[j] == row;
      if j < n {
        assert page[j] == row;
      } else if 0 < n {
        assert KeyAtMost(key(ordered[n - 1]), key(ordered[j]));
      }
    }
  }

  /** The first rows of an ordering of the admitted rows, as many as fit in
      `size`, form a keyset page. */
  lemma PrefixIsKeysetPage(rows: seq<HistoryRecord>, ordered: seq<HistoryRecord>, key: HistoryRecord -> SortKey,
                           pool: seq<HistoryRecord>, admits: HistoryRecord -> bool, size: nat)
    requires SortedBy(ordered, key) && multiset(ordered) == multiset(rows)
    requires forall row :: row in rows <==> row in pool && admits(row)
    ensures var n := if size < |ordered| then size else |ordered|;
            IsKeysetPage(ordered[..n], pool, admits, key, size)
  {
    var n := if size < |ordered| then size else |ordered|;
    var page := ordered[..n];
    PrefixOfOrdering(rows, ordered, key, n);
    assert SortedBy(page, key) by {
      assert forall i :: 0 <= i < n ==> page[i] == ordered[i];
    }
    if 0 < size == n {
      assert page[n - 1] == ordered[n - 1];
    }
  }

  /** The query returns a keyset page over the rows its predicates accept;
      `admits` names that set of rows. */
  lemma RunQueryIsKeysetPage(history: seq<HistoryRecord>, preds: seq<Predicate>, key: HistoryRecord -> SortKey,
                             maxResults: nat, admits: HistoryRecord -> bool)
    requires AllResolvable(preds)
    requires forall row :: admits(row) <==> AllHold(preds, row)
    ensures IsKeysetPage(RunQuery(history, preds, key, maxResults), history, admits, key, maxResults)
  {
    var matching := Seqs.Filter(history, row => AllHold(preds, row));
    PrefixIsKeysetPage(matching, SortBy(matching, key), key, history, admits, maxResults);
  }

  // ----- the first page

  /** The predicate list `findWalletHistory` fills: a lower bound when `from`
      is given, an upper bound when `to` is. The walletId equality is built but
      never added. */
  function FirstPagePredicates(from: Option<Time>, to: Option<Time>): (preds: seq<Predicate>)
    ensures AllResolvable(preds)
    ensures forall row :: AllHold(preds, row) <==> InBounds(row, from, to)
  {
    var lower := if from.Some? then [OccurredAtFromPredicate(from)] else [];
    var upper := if to.Some? then [OccurredAtToPredicate(to)] else [];
    var preds := lower + upper;
    assert forall row :: AllHold(preds, row) <==> InBounds(row, from, to) by {
      forall row
        ensures AllHold(preds, row) <==> InBounds(row, from, to)
      {
        if from.Some? {
          assert preds[0] == OccurredAtFromPredicate(from);
        }
        if to.Some? {
          assert preds[|preds| - 1] == OccurredAtToPredicate(to);
        }
      }
    }
    preds
  }

  /** Within the optional inclusive bounds on occurredAt. */
  predicate InBounds(row: HistoryRecord, from: Option<Time>, to: Option<Time>) {
    && (from.None? || row.occurredAt >= from.value)
    && (to.None? || row.occurredAt <= to.value)
  }

  /** The key parameters of the first page: one entry per bound given. */
  function KeyParams(from: Option<Time>, to: Option<Time>): (kp: map<string, Time>)
    ensures OCCURRED_AT_FROM_PARAM in kp <==> from.Some?
    ensures OCCURRED_AT_TO_PARAM in kp <==> to.Some?
    ensures from.Some? ==> kp[OCCURRED_AT_FROM_PARAM] == from.value
    ensures to.Some? ==> kp[OCCURRED_AT_TO_PARAM] == to.value
    ensures forall k :: k in kp ==> k == OCCURRED_AT_FROM_PARAM || k == OCCURRED_AT_TO_PARAM
  {
    var withFrom := if from.Some? then map[OCCURRED_AT_FROM_PARAM := from.value] else map[];
    assert |OCCURRED_AT_FROM_PARAM| != |OCCURRED_AT_TO_PARAM|;
    if to.Some? then withFrom[OCCURRED_AT_TO_PARAM := to.value] else withFrom
  }

  /** `findWalletHistory`: the first page for the optional bounds. */
  function FindWalletHistory(history: seq<HistoryRecord>, walletId: Uuid, from: Option<Time>, to: Option<Time>,
                             limit: Int): (r: Result<CreatePageCall, QueryError>)
    ensures r.Success? ==> r.value.size == limit + 1 && |r.value.entities| <= r.value.size
    ensures r.Success? ==> forall row :: row in r.value.entities ==> row in history
  {
    var predicates := FirstPagePredicates(from, to);
    var maxResults :- MaxResults(limit);
    Success(CreatePageCall(RunQuery(history, predicates, FirstPageKey, maxResults), None,
                           Some(KeyParams(from, to)), WrapInt(limit + 1)))
  }

  /** `findWalletHistory` as written: the predicate list and the key
      parameters are filled one bound at a time before the query runs. */
  method FindWalletHistoryIn(store: Ledger.Store, walletId: Uuid, from: Option<Time>, to: Option<Time>, limit: Int)
    returns (r: Result<CreatePageCall, QueryError>)
    ensures r == FindWalletHistory(store.history, walletId, from, to, limit)
  {
    var predicates: seq<Predicate> := [];
    if from.Some? {
      predicates := predicates + [OccurredAtFromPredicate(from)];
    }
    if to.Some? {
      predicates := predicates + [OccurredAtToPredicate(to)];
    }
    assert predicates == FirstPagePredicates(from, to);
    var maxResults := MaxResults(limit);
    if maxResults.Failure? {
      return Failure(maxResults.error);
    }
    var resultList := RunQuery(store.history, predicates, FirstPageKey, maxResults.value);
    var keyParams: map<string, Time> := map[];
    if from.Some? {
      keyParams := keyParams[OCCURRED_AT_FROM_PARAM := from.value];
    }
    if to.Some? {
      keyParams := keyParams[OCCURRED_AT_TO_PARAM := to.value];
    }
    assert keyParams == KeyParams(from, to);
    r := Success(CreatePageCall(resultList, None, Some(keyParams), WrapInt(limit + 1)));
  }

  /** The first page fails only when `limit + 1` is negative as an `Int`;
      otherwise it hands `createPage` no token, one key parameter per bound
      given and the page size `limit + 1`. */
  lemma FirstPageOutcome(history: seq<HistoryRecord>, walletId: Uuid, from: Option<Time>, to: Option<Time>,
                         limit: Int)
    ensures var r := FindWalletHistory(history, walletId, from, to, limit);
            && (r.Success? <==> -1 <= limit < INT_MAX)
            && (r.Success? ==>
                  && r.value.size == limit + 1
                  && r.value.token.None?
                  && r.value.keyParams == Some(KeyParams(from, to)))
  {
  }

  /** The rows of the first page: a keyset page of `limit + 1` rows over the
      rows within the bounds, of every wallet, in walletId then occurredAt
      order. */
  lemma FirstPageRows(history: seq<HistoryRecord>, walletId: Uuid, from: Option<Time>, to: Option<Time>, limit: Int)
    requires -1 <= limit < INT_MAX
    ensures FindWalletHistory(history, walletId, from, to, limit).Success?
    ensures IsKeysetPage(FindWalletHistory(history, walletId, from, to, limit).value.entities, history,
                         row => InBounds(row, from, to), FirstPageKey, limit + 1)
  {
    var predicates := FirstPagePredicates(from, to);
    var page := RunQuery(history, predicates, FirstPageKey, limit + 1);
    assert FindWalletHistory(history, walletId, from, to, limit).value.entities == page;
    RunQueryIsKeysetPage(history, predicates, FirstPageKey, limit + 1, row => InBounds(row, from, to));
  }

  /** The walletId argument does not narrow the first page: a row of another
      wallet within the bounds is on it. */
  lemma FirstPageIgnoresWalletId(walletId: Uuid, row: HistoryRecord, limit: Int)
    requires row.walletId != walletId && 0 <= limit < INT_MAX
    ensures FindWalletHistory([row], walletId, None, None, limit).value.entities == [row]
  {
    assert AllHold([], row);
    assert Seqs.Filter([row], r => AllHold([], r)) == [row];
  }

  // ----- the next page

  /** The predicates for the carried bounds: the FROM value goes to the
      upper-bound builder and the TO value to the lower-bound one. */
  function CarriedBoundPredicates(keyParams: Option<map<string, Time>>): (preds: seq<Predicate>)
    ensures keyParams.None? ==> preds == []
    ensures keyParams.Some? ==>
              preds == [CreatedAtToPredicate(Get(keyParams.value, OCCURRED_AT_FROM_PARAM)),
                        CreatedAtFromPredicate(Get(keyParams.value, OCCURRED_AT_TO_PARAM))]
  {
    if keyParams.None? then []
    else [CreatedAtToPredicate(Get(keyParams.value, OCCURRED_AT_FROM_PARAM)),
          CreatedAtFromPredicate(Get(keyParams.value, OCCURRED_AT_TO_PARAM))]
  }

  /** `findNextWalletHistory`: the carried bounds, then the cursor, then the
      query in occurredAt then walletId order. */
  function FindNextWalletHistory(history: seq<HistoryRecord>, token: ContinuationToken, limit: Int)
    : (r: Result<CreatePageCall, QueryError>)
    ensures r.Success? ==> r.value.size == limit + 1 && |r.value.entities| <= r.value.size
    ensures r.Success? ==> r.value.token == Some(token) && r.value.keyParams == token.keyParams
    ensures r.Success? ==> forall row :: row in r.value.entities ==>
                             row in history && EpochSecond(row.occurredAt) >= token.timestamp
  {
    var carried := CarriedBoundPredicates(token.keyParams);
    var resolved := Resolve(carried);
    if resolved.Fail? then Failure(resolved.error)
    else
      var id := Uuids.FromString(token.id);
      if id.None? then Failure(InvalidUuid(token.id))
      else
        var cursor :- ContinuationPredicate(token.timestamp, id.value);
        var maxResults :- MaxResults(limit);
        var preds := carried + [cursor];
        assert preds[|carried|] == cursor;
        Success(CreatePageCall(RunQuery(history, preds, NextPageKey, maxResults), Some(token),
                               token.keyParams, WrapInt(limit + 1)))
  }

  /** `findNextWalletHistory` as written: the predicate list is filled step
      by step before the query runs. */
  method FindNextWalletHistoryIn(store: Ledger.Store, token: ContinuationToken, limit: Int)
    returns (r: Result<CreatePageCall, QueryError>)
    ensures r == FindNextWalletHistory(store.history, token, limit)
  {
    var predicates: seq<Predicate> := [];
    if token.keyParams.Some? {
      predicates := predicates + [CreatedAtToPredicate(Get(token.keyParams.value, OCCURRED_AT_FROM_PARAM))];
      predicates := predicates + [CreatedAtFromPredicate(Get(token.keyParams.value, OCCURRED_AT_TO_PARAM))];
    }
    assert predicates == CarriedBoundPredicates(token.keyParams);
    var resolved := Resolve(predicates);
    if resolved.Fail? {
      return Failure(resolved.error);
    }
    var id := Uuids.FromString(token.id);
    if id.None? {
      return Failure(InvalidUuid(token.id));
    }
    var cursor := ContinuationPredicate(token.timestamp, id.value);
    if cursor.Failure? {
      return Failure(cursor.error);
    }
    predicates := predicates + [cursor.value];
    var maxResults := MaxResults(limit);
    if maxResults.Failure? {
      return Failure(maxResults.error);
    }
    var resultList := RunQuery(store.history, predicates, NextPageKey, maxResults.value);
    r := Success(CreatePageCall(resultList, Some(token), token.keyParams, WrapInt(limit + 1)));
  }

  /** Key parameters holding a bound. */
  predicate CarriesBound(keyParams: Option<map<string, Time>>) {
    keyParams.Some? && (OCCURRED_AT_FROM_PARAM in keyParams.value || OCCURRED_AT_TO_PARAM in keyParams.value)
  }

  /** Rows after the cursor: at or after the token's epoch second, with a
      `walletId` column above the token's id. */
  predicate AfterCursor(row: HistoryRecord, timestamp: Long, id: Uuid) {
    EpochSecond(row.occurredAt) >= timestamp && row.walletId > id
  }

  /** The carried bounds build only when the token carries none; either
      bound names the missing `createdAt` attribute. */
  lemma CarriedBoundsResolve(keyParams: Option<map<string, Time>>)
    ensures Resolve(CarriedBoundPredicates(keyParams)).Pass? <==> !CarriesBound(keyParams)
    ensures !CarriesBound(keyParams) ==> forall row :: AllHold(CarriedBoundPredicates(keyParams), row)
  {
    var carried := CarriedBoundPredicates(keyParams);
    if keyParams.Some? {
      var kp := keyParams.value;
      assert Resolvable(carried[0]) <==> OCCURRED_AT_FROM_PARAM !in kp;
      assert Resolvable(carried[1]) <==> OCCURRED_AT_TO_PARAM !in kp;
      if !CarriesBound(keyParams) {
        forall row
          ensures AllHold(carried, row)
        {
          assert Holds(carried[0], row) && Holds(carried[1], row);
        }
      }
    }
  }

  /** The next page: a token carrying a bound always fails on the missing
      `createdAt` attribute, so the carried bounds never filter; a token id
      that is not a UUID, an epoch second outside the dates `LocalDateTime` can hold and a
      negative `limit + 1` fail too; otherwise `createPage` receives the token,
      its key parameters and the page size `limit + 1`. */
  lemma NextPageOutcome(history: seq<HistoryRecord>, token: ContinuationToken, limit: Int)
    ensures var r := FindNextWalletHistory(history, token, limit);
            && (CarriesBound(token.keyParams) ==> r == Failure(UnknownAttribute("createdAt")))
            && (!CarriesBound(token.keyParams) && Uuids.FromString(token.id).None? ==> r == Failure(InvalidUuid(token.id)))
            && (r.Success? <==>
                  && !CarriesBound(token.keyParams)
                  && Uuids.FromString(token.id).Some?
                  && LOCAL_DATE_TIME_MIN_SECOND <= token.timestamp <= LOCAL_DATE_TIME_MAX_SECOND
                  && -1 <= limit < INT_MAX)
            && (r.Success? ==>
                  && r.value.size == limit + 1
                  && r.value.token == Some(token)
                  && r.value.keyParams == token.keyParams)
  {
    CarriedBoundsResolve(token.keyParams);
  }

  /** Predicates that hold everywhere, then the cursor: together they accept
      exactly the rows after the cursor. */
  lemma CursorDecides(carried: seq<Predicate>, cursor: Predicate, timestamp: Long, id: Uuid)
    requires AllResolvable(carried) && Resolvable(cursor)
    requires forall row :: AllHold(carried, row)
    requires forall row :: Holds(cursor, row) <==> AfterCursor(row, timestamp, id)
    ensures AllResolvable(carried + [cursor])
    ensures forall row :: AllHold(carried + [cursor], row) <==> AfterCursor(row, timestamp, id)
  {
    var preds := carried + [cursor];
    assert preds[|carried|] == cursor;
    forall row
      ensures AllHold(preds, row) <==> AfterCursor(row, timestamp, id)
    {
      assert AllHold(carried, row);
    }
  }

  /** The rows of a next page: a keyset page of `limit + 1` rows over the rows
      after the cursor, in occurredAt then walletId order. */
  lemma NextPageRows(history: seq<HistoryRecord>, token: ContinuationToken, limit: Int)
    requires FindNextWalletHistory(history, token, limit).Success?
    ensures Uuids.FromString(token.id).Some? && -1 <= limit < INT_MAX
    ensures IsKeysetPage(FindNextWalletHistory(history, token, limit).value.entities, history,
                         row => AfterCursor(row, token.timestamp, Uuids.FromString(token.id).value),
                         NextPageKey, limit + 1)
  {
    NextPageOutcome(history, token, limit);
    CarriedBoundsResolve(token.keyParams);
    var carried := CarriedBoundPredicates(token.keyParams);
    var id := Uuids.FromString(token.id).value;
    var cursor := ContinuationPredicate(token.timestamp, id).value;
    var preds := carried + [cursor];
    CursorDecides(carried, cursor, token.timestamp, id);
    assert FindNextWalletHistory(history, token, limit).value.entities == RunQuery(history, preds, NextPageKey, limit + 1);
    RunQueryIsKeysetPage(history, preds, NextPageKey, limit + 1, row => AfterCursor(row, token.timestamp, id));
  }

  /** The cursor's tiebreak is the `walletId` column: no row of the wallet
      whose id the token carries is ever on a next page. */
  lemma NextPageSkipsTokenWallet(history: seq<HistoryRecord>, token: ContinuationToken, limit: Int, row: HistoryRecord)
    requires FindNextWalletHistory(history, token, limit).Success?
    requires Uuids.FromString(token.id) == Some(row.walletId)
    ensures row !in FindNextWalletHistory(history, token, limit).value.entities
  {
    NextPageRows(history, token, limit);
  }

  /** The row limit: `Int.MAX_VALUE` wraps to a negative limit, which fails;
      a limit of -1 gives an empty page. */
  lemma LimitEdges(history: seq<HistoryRecord>, walletId: Uuid, from: Option<Time>, to: Option<Time>)
    ensures FindWalletHistory(history, walletId, from, to, INT_MAX) == Failure(NegativeMaxResults(INT_MIN))
    ensures FindWalletHistory(history, walletId, from, to, -1).Success?
    ensures FindWalletHistory(history, walletId, from, to, -1).value.entities == []
  {
    FirstPageRows(history, walletId, from, to, -1);
  }
}
