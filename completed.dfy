/**
 * `getCompletedOrders(limit)` of lib/db.js: the completed orders, latest
 * completion first, cut to `limit`, each annotated with its processing time.
 */
module CompletedOrders {
  import opened Wrappers
  import opened Records
  import opened JsMath
  import Db

  /** An order as listed, together with its derived `processing_minutes`. */
  datatype CompletedOrder = CompletedOrder(order: Order, processingMinutes: int)

  /** Rounded minutes from claim to completion, 0 when either stamp is missing. */
  function ProcessingMinutes(o: Order): int {
    if o.claimedAt.Some? && o.completedAt.Some? then Minutes(o.completedAt.value - o.claimedAt.value) else 0
  }

  predicate IsCompleted(o: Order) {
    o.status == "completed"
  }

  function CompletedOnly(orders: seq<Order>): (r: seq<Order>)
    ensures |r| <= |orders|
    ensures forall o :: multiset(r)[o] == if IsCompleted(o) then multiset(orders)[o] else 0
  {
    if orders == [] then []
    else
      assert orders == [orders[0]] + orders[1..];
      (if IsCompleted(orders[0]) then [orders[0]] else []) + CompletedOnly(orders[1..])
  }

  /**
   * The comparator's key `new Date(o.completedAt)` in milliseconds: a stored
   * `completedAt: null` reads as the epoch, 0.
   */
  function SortKey(o: Order): int {
    o.completedAt.GetOr(0)
  }

  /** Latest completion first. */
  predicate LatestFirst(s: seq<Order>) {
    forall i, j :: 0 <= i < j < |s| ==> SortKey(s[i]) >= SortKey(s[j])
  }

  /** Places `x` before the first element that completed no later than it (keeps ties in input order). */
  function Insert(x: Order, s: seq<Order>): (r: seq<Order>)
    requires LatestFirst(s)
    ensures |r| == |s| + 1 && LatestFirst(r)
    ensures r[0] == x || (|s| > 0 && r[0] == s[0])
    ensures multiset(r) == multiset(s) + multiset{x}
  {
    if s == [] || SortKey(s[0]) <= SortKey(x) then
      [x] + s
    else
      var rest := Insert(x, s[1..]);
      InsertStep(x, s, rest);
      [s[0]] + rest
  }

  /** The recursive case of `Insert`: `s[0]` finished later than `x`, so it goes first. */
  lemma InsertStep(x: Order, s: seq<Order>, rest: seq<Order>)
    requires LatestFirst(s) && |s| > 0
    requires SortKey(s[0]) > SortKey(x)
    requires |rest| == |s| && LatestFirst(rest)
    requires rest[0] == x || (|s| > 1 && rest[0] == s[1])
    requires multiset(rest) == multiset(s[1..]) + multiset{x}
    ensures LatestFirst([s[0]] + rest)
    ensures multiset([s[0]] + rest) == multiset(s) + multiset{x}
  {
    assert s == [s[0]] + s[1..];
    assert SortKey(s[0]) >= SortKey(rest[0]);
    LatestFirstCons(s[0], rest);
  }

  lemma LatestFirstCons(y: Order, s: seq<Order>)
    requires LatestFirst(s)
    requires |s| > 0 ==> SortKey(y) >= SortKey(s[0])
    ensures LatestFirst([y] + s)
  {
    var t := [y] + s;
    forall i, j | 0 <= i < j < |t| ensures SortKey(t[i]) >= SortKey(t[j]) {
      if i == 0 && j > 1 {
        assert t[j] == s[j - 1] && SortKey(s[0]) >= SortKey(s[j - 1]);
      }
    }
  }

  /** The comparator sort `(a, b) => completedAt(b) - completedAt(a)`, as a stable insertion sort. */
  function SortLatestFirst(s: seq<Order>): (r: seq<Order>)
    ensures |r| == |s| && LatestFirst(r)
    ensures multiset(r) == multiset(s)
  {
    if s == [] then []
    else
      assert s == [s[0]] + s[1..];
      Insert(s[0], SortLatestFirst(s[1..]))
  }

  /** End index of `slice(0, limit)` on an array of `len` elements: negative limits count from the end. */
  function SliceEnd(len: nat, limit: int): (e: nat)
    ensures e <= len
    ensures limit >= 0 ==> e == if limit < len then limit else len
    ensures limit < 0 ==> e == if len + limit > 0 then len + limit else 0
  {
    if limit < 0 then (if len + limit > 0 then len + limit else 0)
    else if limit < len then limit else len
  }

  function Annotate(s: seq<Order>): (r: seq<CompletedOrder>)
    ensures |r| == |s|
    ensures forall i :: 0 <= i < |s| ==> r[i] == CompletedOrder(s[i], ProcessingMinutes(s[i]))
  {
    seq(|s|, i requires 0 <= i < |s| => CompletedOrder(s[i], ProcessingMinutes(s[i])))
  }

  function OrdersOf(r: seq<CompletedOrder>): (s: seq<Order>)
    ensures |s| == |r| && forall i :: 0 <= i < |r| ==> s[i] == r[i].order
  {
    seq(|r|, i requires 0 <= i < |r| => r[i].order)
  }

  /** A completed order sorted past the cut finished no later than anything kept. */
  lemma LeftOutFinishedEarlier(sorted: seq<Order>, end: nat, o: Order)
    requires LatestFirst(sorted) && end <= |sorted|
    requires o in sorted && o !in sorted[..end]
    ensures forall i :: 0 <= i < end ==> SortKey(o) <= SortKey(sorted[i])
  {
    var k :| 0 <= k < |sorted| && sorted[k] == o;
  }

  /** What a prefix of the sorted completed orders inherits from the input. */
  lemma PrefixFacts(orders: seq<Order>, sorted: seq<Order>, end: nat)
    requires multiset(sorted) == multiset(CompletedOnly(orders))
    requires LatestFirst(sorted) && end <= |sorted|
    ensures forall i :: 0 <= i < end ==> sorted[i] in orders && IsCompleted(sorted[i])
    ensures multiset(sorted[..end]) <= multiset(CompletedOnly(orders))
    ensures forall o :: o in orders && IsCompleted(o) && o !in sorted[..end] ==>
      forall i :: 0 <= i < end ==> SortKey(o) <= SortKey(sorted[i])
  {
    forall i | 0 <= i < end ensures sorted[i] in orders && IsCompleted(sorted[i]) {
      assert sorted[i] in multiset(sorted);
      assert sorted[i] in multiset(orders);
    }
    assert sorted == sorted[..end] + sorted[end..];
    forall o | o in orders && IsCompleted(o) && o !in sorted[..end]
      ensures forall i :: 0 <= i < end ==> SortKey(o) <= SortKey(sorted[i])
    {
      assert o in multiset(orders);
      assert o in multiset(sorted);
      LeftOutFinishedEarlier(sorted, end, o);
    }
  }

  /** The kept entries: completed input orders with their minutes, latest first. */
  lemma KeptFacts(orders: seq<Order>, sorted: seq<Order>, end: nat, r: seq<CompletedOrder>)
    requires multiset(sorted) == multiset(CompletedOnly(orders))
    requires LatestFirst(sorted) && end <= |sorted|
    requires r == Annotate(sorted[..end])
    ensures forall i :: 0 <= i < |r| ==>
      && r[i].order in orders && IsCompleted(r[i].order)
      && r[i].processingMinutes == ProcessingMinutes(r[i].order)
    ensures forall i, j :: 0 <= i < j < |r| ==> SortKey(r[i].order) >= SortKey(r[j].order)
  {
    PrefixFacts(orders, sorted, end);
    forall i | 0 <= i < |r|
      ensures r[i].order in orders && IsCompleted(r[i].order)
      ensures r[i].processingMinutes == ProcessingMinutes(r[i].order)
    {
      assert r[i].order == sorted[i];
    }
    forall i, j | 0 <= i < j < |r| ensures SortKey(r[i].order) >= SortKey(r[j].order) {
      assert r[i].order == sorted[i] && r[j].order == sorted[j];
    }
  }

  /** The left-out entries: the kept ones are a sub-multiset, and nothing left out finished later. */
  lemma LeftOutFacts(orders: seq<Order>, sorted: seq<Order>, end: nat, r: seq<CompletedOrder>)
    requires multiset(sorted) == multiset(CompletedOnly(orders))
    requires LatestFirst(sorted) && end <= |sorted|
    requires r == Annotate(sorted[..end])
    ensures multiset(OrdersOf(r)) <= multiset(CompletedOnly(orders))
    ensures forall o :: o in orders && IsCompleted(o) && o !in OrdersOf(r) ==>
      forall i :: 0 <= i < |r| ==> SortKey(o) <= SortKey(r[i].order)
  {
    PrefixFacts(orders, sorted, end);
    assert OrdersOf(r) == sorted[..end];
  }

  /** The list the recent page shows, computed from an order array. */
  function CompletedList(orders: seq<Order>, limit: int): (r: seq<CompletedOrder>)
    ensures |r| == SliceEnd(|CompletedOnly(orders)|, limit)
    ensures forall i :: 0 <= i < |r| ==>
      && r[i].order in orders && IsCompleted(r[i].order)
      && r[i].processingMinutes == ProcessingMinutes(r[i].order)
    ensures forall i, j :: 0 <= i < j < |r| ==> SortKey(r[i].order) >= SortKey(r[j].order)
    ensures multiset(OrdersOf(r)) <= multiset(CompletedOnly(orders))
    ensures forall o :: o in orders && IsCompleted(o) && o !in OrdersOf(r) ==>
      forall i :: 0 <= i < |r| ==> SortKey(o) <= SortKey(r[i].order)
  {
    var sorted := SortLatestFirst(CompletedOnly(orders));
    var end := SliceEnd(|sorted|, limit);
    var r := Annotate(sorted[..end]);
    KeptFacts(orders, sorted, end, r);
    LeftOutFacts(orders, sorted, end, r);
    r
  }

  /** `getCompletedOrders(limit)` over the stored orders (none when nothing is stored). */
  function GetCompletedOrders(stored: Option<seq<Order>>, limit: int): seq<CompletedOrder>
  {
    CompletedList(Db.GetFromEdge(stored, []), limit)
  }

  /** With a non-negative limit the list holds min(limit, number of completed orders) entries. */
  lemma ListLength(orders: seq<Order>, limit: nat)
    ensures |CompletedList(orders, limit)| == if limit < |CompletedOnly(orders)| then limit else |CompletedOnly(orders)|
  {
  }

  /** An order with a missing stamp lists with zero minutes. */
  lemma UnclaimedHasZeroMinutes(o: Order)
    requires o.claimedAt.None?
    ensures ProcessingMinutes(o) == 0
  {
  }
}
