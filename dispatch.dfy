/** What both Kafka listeners do to a batch before any handler runs: decode
    every record, pick for each event the first handler bean that accepts
    it, and group the events by that choice (Kotlin's `groupBy`, whose
    `LinkedHashMap` keeps the keys in the order they first occur). A group is
    recorded by the positions of its events in the batch, so that the fresh
    values drawn for an event travel with it. */
module Dispatch {
  import opened Wrappers
  import opened Seqs

  /** A Kafka record's value, as the listeners receive it. */
  type Bytes = seq<bv8>

  /** The listener container's `Acknowledgment`: how many times the batch's
      offsets have been committed. */
  class Acknowledgment {
    var acknowledged: nat

    constructor ()
      ensures acknowledged == 0
    {
      acknowledged := 0;
    }

    /** `acknowledge()`. */
    method Acknowledge()
      modifies this
      ensures acknowledged == old(acknowledged) + 1
    {
      acknowledged := acknowledged + 1;
    }
  }

  /** `List(messages.size) { parseFrom(messages[i]) }`: every record decoded,
      in order; the first record the parser refuses aborts the batch, and its
      position is the error. */
  function DecodeAll<M, E>(messages: seq<M>, parse: M -> Option<E>): (r: Result<seq<E>, nat>)
    ensures r.Success? ==> |r.value| == |messages| &&
                           forall i :: 0 <= i < |messages| ==> parse(messages[i]) == Some(r.value[i])
    ensures r.Failure? ==> r.error < |messages| && parse(messages[r.error]).None? &&
                           forall i :: 0 <= i < r.error ==> parse(messages[i]).Some?
    decreases |messages|
  {
    if messages == [] then Success([])
    else
      match parse(messages[0])
      case None => Failure(0)
      case Some(e) =>
        match DecodeAll(messages[1..], parse)
        case Failure(i) => Failure(i + 1)
        case Success(es) => Success([e] + es)
  }

  /** `handlers.find { it.isHandle(entry) }`: the position of the first
      handler that accepts `e`, or none when no handler does. */
  function FirstAccepting<H, E>(handlers: seq<H>, accepts: (H, E) -> bool, e: E): (r: Option<nat>)
    ensures r.Some? ==> r.value < |handlers| && accepts(handlers[r.value], e) &&
                        forall j :: 0 <= j < r.value ==> !accepts(handlers[j], e)
    ensures r.None? ==> forall j :: 0 <= j < |handlers| ==> !accepts(handlers[j], e)
    decreases |handlers|
  {
    if handlers == [] then None
    else if accepts(handlers[0], e) then Some(0)
    else
      match FirstAccepting(handlers[1..], accepts, e)
      case None => None
      case Some(j) => Some(j + 1)
  }

  /** The distinct keys of `xs`, in the order they first occur: the key set
      of the `LinkedHashMap` that `groupBy` fills element by element. */
  function Keys<T, K(==)>(xs: seq<T>, key: T -> K): (ks: seq<K>)
    ensures forall i, j :: 0 <= i < j < |ks| ==> ks[i] != ks[j]
    ensures forall x :: x in xs ==> key(x) in ks
    ensures forall k :: k in ks ==> exists x :: x in xs && key(x) == k
    decreases |xs|
  {
    if xs == [] then []
    else
      var ks := Keys(xs[..|xs| - 1], key);
      assert forall x :: x in xs[..|xs| - 1] ==> x in xs;
      if key(xs[|xs| - 1]) in ks then ks else ks + [key(xs[|xs| - 1])]
  }

  /** Every number below `n`, and nothing else, is in `Range(n)`. */
  lemma RangeMembers(n: nat)
    ensures Increasing(Range(n))
    ensures forall p: nat :: p in Range(n) <==> p < n
  {
    forall p: nat | p < n ensures p in Range(n) {
      assert Range(n)[p] == p;
    }
  }

  /** The positions in `xs` whose key is `k`, in increasing order. */
  function Positions<T, K(==)>(xs: seq<T>, key: T -> K, k: K): (ps: seq<nat>)
    ensures Increasing(ps)
    ensures forall p: nat :: p in ps <==> p < |xs| && key(xs[p]) == k
    ensures forall m :: 0 <= m < |ps| ==> ps[m] < |xs|
    ensures (forall p: nat :: p < |xs| ==> key(xs[p]) != k) ==> ps == []
  {
    var keep := (p: nat) => p < |xs| && key(xs[p]) == k;
    RangeMembers(|xs|);
    FilterKeepsOrder(Range(|xs|), keep);
    var ps := Filter(Range(|xs|), keep);
    assert forall m :: 0 <= m < |ps| ==> ps[m] in ps;
    if forall p: nat :: p < |xs| ==> key(xs[p]) != k then
      FilterNone(Range(|xs|), keep);
      ps
    else
      ps
  }

  /** The elements of `xs` at positions `ps`, in the order of `ps`. */
  function Pick<T>(xs: seq<T>, ps: seq<nat>): (r: seq<T>)
    requires forall m :: 0 <= m < |ps| ==> ps[m] < |xs|
    ensures |r| == |ps| && forall m :: 0 <= m < |ps| ==> r[m] == xs[ps[m]]
  {
    seq(|ps|, m requires 0 <= m < |ps| => xs[ps[m]])
  }

  /** Every position a group holds is a position of a batch of `n` events. */
  predicate InBounds<K>(groups: seq<(K, seq<nat>)>, n: nat) {
    forall i, m :: 0 <= i < |groups| && 0 <= m < |groups[i].1| ==> groups[i].1[m] < n
  }

  /** One group per key of `ks`, in that order, each holding the positions
      of the elements with its key. */
  function GroupsOf<T, K(==)>(xs: seq<T>, key: T -> K, ks: seq<K>): (groups: seq<(K, seq<nat>)>)
    ensures |groups| == |ks| && forall i :: 0 <= i < |ks| ==> groups[i].0 == ks[i]
    ensures InBounds(groups, |xs|)
    decreases |ks|
  {
    if ks == [] then []
    else
      var rest := GroupsOf(xs, key, ks[1..]);
      var groups := [(ks[0], Positions(xs, key, ks[0]))] + rest;
      assert forall i :: 1 <= i < |groups| ==> groups[i] == rest[i - 1];
      groups
  }

  /** `groupBy(key)`: one group per key, in the order of `Keys`. */
  function GroupBy<T, K(==)>(xs: seq<T>, key: T -> K): (groups: seq<(K, seq<nat>)>)
    ensures |groups| == |Keys(xs, key)| && forall i :: 0 <= i < |groups| ==> groups[i].0 == Keys(xs, key)[i]
    ensures InBounds(groups, |xs|)
  {
    GroupsOf(xs, key, Keys(xs, key))
  }

  /** Group `i` holds the positions of the elements with key `ks[i]`. */
  lemma {:induction false} GroupAt<T, K>(xs: seq<T>, key: T -> K, ks: seq<K>, i: nat)
    requires i < |ks|
    ensures GroupsOf(xs, key, ks)[i].1 == Positions(xs, key, ks[i])
    decreases i
  {
    if i > 0 {
      GroupAt(xs, key, ks[1..], i - 1);
    }
  }

  /** The groups before position `j` and after it: each keeps the bounds
      of the whole. */
  lemma SliceAround<K>(groups: seq<(K, seq<nat>)>, n: nat, j: nat)
    returns (before: seq<(K, seq<nat>)>, after: seq<(K, seq<nat>)>)
    requires j < |groups| && InBounds(groups, n)
    ensures groups == before + ([groups[j]] + after)
    ensures |before| == j && forall i :: 0 <= i < j ==> before[i] == groups[i]
    ensures |after| == |groups| - j - 1 && forall i :: 0 <= i < |after| ==> after[i] == groups[j + 1 + i]
    ensures InBounds(before, n) && InBounds(after, n)
  {
    before, after := groups[..j], groups[j + 1..];
    assert groups == before + ([groups[j]] + after);
  }

  /** Some element carrying key `a` comes before every element carrying
      key `b`. */
  ghost predicate OccursBefore<T, K>(xs: seq<T>, key: T -> K, a: K, b: K) {
    exists p :: 0 <= p < |xs| && key(xs[p]) == a && forall q :: 0 <= q <= p ==> key(xs[q]) != b
  }

  /** The keys come in the order in which they first occur in `xs`. */
  lemma {:induction false} KeysInFirstOccurrenceOrder<T, K>(xs: seq<T>, key: T -> K)
    ensures forall i, j :: 0 <= i < j < |Keys(xs, key)| ==> OccursBefore(xs, key, Keys(xs, key)[i], Keys(xs, key)[j])
    decreases |xs|
  {
    if xs != [] {
      var init := xs[..|xs| - 1];
      var ks0 := Keys(init, key);
      var ks := Keys(xs, key);
      KeysInFirstOccurrenceOrder(init, key);
      forall i, j | 0 <= i < j < |ks| ensures OccursBefore(xs, key, ks[i], ks[j]) {
        assert ks[..|ks0|] == ks0;
        assert ks[i] == ks0[i];
        if j < |ks0| {
          assert ks[j] == ks0[j];
          assert OccursBefore(init, key, ks0[i], ks0[j]);
          var p :| 0 <= p < |init| && key(init[p]) == ks0[i] && forall q :: 0 <= q <= p ==> key(init[q]) != ks0[j];
          assert forall q :: 0 <= q <= p ==> xs[q] == init[q];
        } else {
          assert ks == ks0 + [key(xs[|xs| - 1])] && ks[j] !in ks0;
          assert ks0[i] in ks0;
          var x :| x in init && key(x) == ks0[i];
          var p :| 0 <= p < |init| && init[p] == x;
          forall q | 0 <= q <= p ensures key(xs[q]) != ks[j] {
            assert xs[q] == init[q] && init[q] in init;
          }
        }
      }
    }
  }

  /** `groupBy` partitions the batch: the groups' keys are distinct, every
      group is non-empty and lists, in increasing order, exactly the
      positions of the elements with its key, and every element's key has a
      group. */
  lemma GroupByPartitions<T, K>(xs: seq<T>, key: T -> K)
    ensures forall i, j :: 0 <= i < j < |GroupBy(xs, key)| ==> GroupBy(xs, key)[i].0 != GroupBy(xs, key)[j].0
    ensures forall i :: 0 <= i < |GroupBy(xs, key)| ==>
              |GroupBy(xs, key)[i].1| > 0 && Increasing(GroupBy(xs, key)[i].1) &&
              forall p: nat :: p in GroupBy(xs, key)[i].1 <==> p < |xs| && key(xs[p]) == GroupBy(xs, key)[i].0
    ensures forall p :: 0 <= p < |xs| ==> exists i :: 0 <= i < |GroupBy(xs, key)| && GroupBy(xs, key)[i].0 == key(xs[p])
  {
    var ks := Keys(xs, key);
    var groups := GroupBy(xs, key);
    forall i | 0 <= i < |groups|
      ensures |groups[i].1| > 0 && Increasing(groups[i].1) &&
              forall p: nat :: p in groups[i].1 <==> p < |xs| && key(xs[p]) == groups[i].0
    {
      GroupAt(xs, key, ks, i);
      assert ks[i] in ks;
      PositionsOfPresentKey(xs, key, ks[i]);
    }
    forall p | 0 <= p < |xs| ensures exists i :: 0 <= i < |groups| && groups[i].0 == key(xs[p]) {
      assert xs[p] in xs;
      var i :| 0 <= i < |ks| && ks[i] == key(xs[p]);
      assert groups[i].0 == key(xs[p]);
    }
  }

  /** A key that occurs in `xs` has a non-empty list of positions. */
  lemma PositionsOfPresentKey<T, K>(xs: seq<T>, key: T -> K, k: K)
    requires k in Keys(xs, key)
    ensures |Positions(xs, key, k)| > 0
  {
    var x :| x in xs && key(x) == k;
    var p :| 0 <= p < |xs| && xs[p] == x;
    assert p in Positions(xs, key, k);
  }

  /** When an element with key `a` precedes every element with key `b`, the
      first position of `a` is smaller than the first position of `b`. */
  lemma FirstPositionsOrdered<T, K>(xs: seq<T>, key: T -> K, a: K, b: K)
    requires OccursBefore(xs, key, a, b) && |Positions(xs, key, b)| > 0
    ensures |Positions(xs, key, a)| > 0 && Positions(xs, key, a)[0] < Positions(xs, key, b)[0]
  {
    var pa := Positions(xs, key, a);
    var pb := Positions(xs, key, b);
    var p :| 0 <= p < |xs| && key(xs[p]) == a && forall q :: 0 <= q <= p ==> key(xs[q]) != b;
    assert p in pa;
    assert pb[0] in pb;
    var m :| 0 <= m < |pa| && pa[m] == p;
    assert m == 0 || pa[0] < pa[m];
  }

  /** Group `i` is non-empty and starts before group `j`. */
  predicate StartsBefore<K>(groups: seq<(K, seq<nat>)>, i: nat, j: nat)
    requires i < |groups| && j < |groups|
  {
    |groups[i].1| > 0 && |groups[j].1| > 0 && groups[i].1[0] < groups[j].1[0]
  }

  /** The groups come in the order in which their keys first occur: the
      first position of an earlier group is smaller. */
  lemma GroupsInFirstOccurrenceOrder<T, K>(xs: seq<T>, key: T -> K)
    ensures forall i: nat, j: nat :: i < j < |GroupBy(xs, key)| ==> StartsBefore(GroupBy(xs, key), i, j)
  {
    forall i: nat, j: nat | i < j < |GroupBy(xs, key)| ensures StartsBefore(GroupBy(xs, key), i, j) {
      GroupPairInOrder(xs, key, i, j);
    }
  }

  lemma GroupPairInOrder<T, K>(xs: seq<T>, key: T -> K, i: nat, j: nat)
    requires i < j < |GroupBy(xs, key)|
    ensures StartsBefore(GroupBy(xs, key), i, j)
  {
    var ks := Keys(xs, key);
    GroupAt(xs, key, ks, i);
    GroupAt(xs, key, ks, j);
    KeysInFirstOccurrenceOrder(xs, key);
    assert OccursBefore(xs, key, ks[i], ks[j]);
    assert ks[j] in ks;
    PositionsOfPresentKey(xs, key, ks[j]);
    FirstPositionsOrdered(xs, key, ks[i], ks[j]);
  }

  /** A key no element carries has no positions. */
  lemma AbsentKeyHasNoPositions<T, K>(xs: seq<T>, key: T -> K, k: K)
    requires k !in Keys(xs, key)
    ensures Positions(xs, key, k) == []
  {
    forall p: nat | p < |xs| ensures key(xs[p]) != k {
      assert xs[p] in xs;
    }
  }

  /** The groups of `xs` around the group of key `k`: the groups before it
      and after it have other keys, and when `k` has no group it has no
      positions either. */
  lemma SplitAtGroup<T, K>(xs: seq<T>, key: T -> K, k: K)
    returns (found: bool, before: seq<(K, seq<nat>)>, after: seq<(K, seq<nat>)>)
    ensures InBounds(before, |xs|) && InBounds(after, |xs|)
    ensures forall i :: 0 <= i < |before| ==> before[i].0 != k && before[i].0 in Keys(xs, key)
    ensures forall i :: 0 <= i < |after| ==> after[i].0 != k && after[i].0 in Keys(xs, key)
    ensures found ==> GroupBy(xs, key) == before + ([(k, Positions(xs, key, k))] + after)
    ensures !found ==> GroupBy(xs, key) == before && Positions(xs, key, k) == []
  {
    var groups := GroupBy(xs, key);
    var ks := Keys(xs, key);
    if k !in ks {
      found, before, after := false, groups, [];
      AbsentKeyHasNoPositions(xs, key, k);
    } else {
      var j :| 0 <= j < |ks| && ks[j] == k;
      GroupAt(xs, key, ks, j);
      found := true;
      before, after := SliceAround(groups, |xs|, j);
      assert groups[j] == (k, Positions(xs, key, k));
      forall i | 0 <= i < |before| ensures before[i].0 != k && before[i].0 in ks {
        assert before[i] == groups[i] && ks[i] != ks[j];
      }
      forall i | 0 <= i < |after| ensures after[i].0 != k && after[i].0 in ks {
        assert after[i] == groups[j + 1 + i] && ks[j + 1 + i] != ks[j];
      }
    }
  }
}
