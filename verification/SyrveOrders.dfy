/** Observed point-of-sale bills and the merge that reconciles several reads of them. */
module SyrveOrders {
  import opened Basics

  /** UUIDs are opaque: only equality matters (and some fixed total order, where ids are paged). */
  type Uuid = nat

  const MAX_SAFE_INTEGER: int := 9_007_199_254_740_991

  datatype Verdict = Open | Closed | Unknown

  datatype OrderStatus = StatusNew | StatusBill | StatusClosed | StatusDeleted

  datatype Reason =
    | CreationInProgress | CreationError | UnknownOrderStatus | MissingOrder
    | ConflictingOrderVersions | UnavailablePos | OrderTableChanged
    | OrderTerminalGroupChanged | ObservationFailed | MissingTable | DeletedTable
    | UnverifiedPosVisibility

  /** One bill as read from the provider; `timestamp` is the provider's opaque version number. */
  datatype Order = Order(
    id: Uuid,
    timestamp: int,
    status: Option<OrderStatus>,
    tables: set<Uuid>,
    group: Option<Uuid>,
    state: Verdict,
    reason: Option<Reason>)

  // ----- Reconciling two records of one bill

  /** The record the merge leaves behind when two reads disagree about one version. */
  function Conflicted(order: Order): Order {
    order.(status := None, state := Unknown, reason := Some(ConflictingOrderVersions))
  }

  predicate Disagrees(order: Order, previous: Order) {
    || order.status != previous.status
    || order.state != previous.state
    || order.reason != previous.reason
    || order.group != previous.group
    || order.tables != previous.tables
  }

  function Reconcile(previous: Order, order: Order): Order {
    if order.timestamp > previous.timestamp then order
    else if order.timestamp == previous.timestamp && Disagrees(order, previous) then Conflicted(previous)
    else previous
  }

  lemma ReconcileAssociative(a: Order, b: Order, c: Order)
    requires a.id == b.id == c.id
    ensures Reconcile(Reconcile(a, b), c) == Reconcile(a, Reconcile(b, c))
  {
  }

  // ----- The merge as a fold

  /** The `result` map of the merge after reading `orders` from left to right. */
  function Merge(orders: seq<Order>): (ledger: map<Uuid, Order>)
    ensures KeyedById(ledger)
  {
    if orders == [] then map[]
    else
      Absorb(Merge(orders[..|orders| - 1]), orders[|orders| - 1])
  }

  function Absorb(ledger: map<Uuid, Order>, order: Order): map<Uuid, Order> {
    ledger[order.id := if order.id in ledger then Reconcile(ledger[order.id], order) else order]
  }

  ghost predicate KeyedById(ledger: map<Uuid, Order>) {
    forall id :: id in ledger ==> ledger[id].id == id
  }

  function Flatten<T>(batches: seq<seq<T>>): seq<T> {
    if batches == [] then [] else Flatten(batches[..|batches| - 1]) + batches[|batches| - 1]
  }

  /** The merge itself: one pass over every record of every batch, filling a map. */
  method MergeSyrveOrders(batches: seq<seq<Order>>) returns (result: map<Uuid, Order>)
    ensures result == Merge(Flatten(batches))
  {
    result := map[];
    ghost var done: seq<Order> := [];
    for b := 0 to |batches|
      invariant done == Flatten(batches[..b])
      invariant result == Merge(done)
    {
      assert batches[..b + 1][..b] == batches[..b];
      for i := 0 to |batches[b]|
        invariant done == Flatten(batches[..b]) + batches[b][..i]
        invariant result == Merge(done)
      {
        var order := batches[b][i];
        ghost var read := done + [order];
        assert read[..|read| - 1] == done;
        if order.id !in result || order.timestamp > result[order.id].timestamp {
          result := result[order.id := order];
        } else if order.timestamp == result[order.id].timestamp && Disagrees(order, result[order.id]) {
          result := result[order.id := Conflicted(result[order.id])];
        } else {
          assert result == result[order.id := result[order.id]];
        }
        done := read;
        assert batches[b][..i + 1] == batches[b][..i] + [order];
      }
      assert batches[b][..|batches[b]|] == batches[b];
    }
    assert batches[..|batches|] == batches;
  }

  // ----- What the merge means

  /** `top` is a record of `id` whose version no other record of `id` exceeds. */
  ghost predicate IsTop(orders: seq<Order>, id: Uuid, top: Order) {
    top in orders && top.id == id && forall o :: o in orders && o.id == id ==> o.timestamp <= top.timestamp
  }

  /** Two reads of the newest version of `id` differ. */
  ghost predicate Contested(orders: seq<Order>, id: Uuid) {
    exists a, b :: IsTop(orders, id, a) && IsTop(orders, id, b) && a != b
  }

  /** An id is in the result exactly when some read mentions it; its record is the newest one, whole,
      unless two newest records differ, and then it is the unknown record of one of them. */
  lemma {:induction false} MergeMeaning(orders: seq<Order>, id: Uuid)
    ensures id in Merge(orders) <==> exists o :: o in orders && o.id == id
    ensures id in Merge(orders) && !Contested(orders, id) ==> IsTop(orders, id, Merge(orders)[id])
    ensures id in Merge(orders) && Contested(orders, id) ==>
              exists top :: IsTop(orders, id, top) && Merge(orders)[id] == Conflicted(top)
  {
    if orders != [] {
      var rest, last := orders[..|orders| - 1], orders[|orders| - 1];
      assert orders == rest + [last];
      assert forall o :: o in orders <==> o in rest || o == last;
      MergeMeaning(rest, id);
      if last.id == id && id in Merge(rest) {
        MergeMeaningStep(rest, last);
      } else if last.id == id {
        assert IsTop(orders, id, last);
        assert forall t :: IsTop(orders, id, t) ==> t == last;
      } else {
        assert forall t :: IsTop(orders, id, t) <==> IsTop(rest, id, t);
      }
    }
  }

  lemma MergeMeaningStep(rest: seq<Order>, last: Order)
    requires last.id in Merge(rest)
    requires !Contested(rest, last.id) ==> IsTop(rest, last.id, Merge(rest)[last.id])
    requires Contested(rest, last.id) ==>
               exists top :: IsTop(rest, last.id, top) && Merge(rest)[last.id] == Conflicted(top)
    ensures var orders := rest + [last]; var r := Reconcile(Merge(rest)[last.id], last);
            && (!Contested(orders, last.id) ==> IsTop(orders, last.id, r))
            && (Contested(orders, last.id) ==> exists top :: IsTop(orders, last.id, top) && r == Conflicted(top))
  {
    var orders, id, kept := rest + [last], last.id, Merge(rest)[last.id];
    assert forall o :: o in orders <==> o in rest || o == last;
    var top: Order;
    if Contested(rest, id) {
      top :| IsTop(rest, id, top) && kept == Conflicted(top);
    } else {
      top := kept;
    }
    if last.timestamp > top.timestamp {
      assert IsTop(orders, id, last);
      assert forall t :: IsTop(orders, id, t) ==> t == last;
    } else {
      assert forall t :: IsTop(orders, id, t) <==> IsTop(rest, id, t) || (t == last && last.timestamp == top.timestamp);
      assert IsTop(orders, id, top);
      if Contested(rest, id) {
        var a, b :| IsTop(rest, id, a) && IsTop(rest, id, b) && a != b;
        assert Contested(orders, id);
      } else if last.timestamp == top.timestamp && last != top {
        assert IsTop(orders, id, last);
        assert Contested(orders, id);
      }
    }
  }

  /** Permuting the reads never changes an id's version or verdict, and an uncontested id keeps its
      whole record. */
  lemma MergeIgnoresOrder(left: seq<Order>, right: seq<Order>, id: Uuid)
    requires forall o :: o in left <==> o in right
    ensures id in Merge(left) <==> id in Merge(right)
    ensures id in Merge(left) ==>
              && Merge(left)[id].timestamp == Merge(right)[id].timestamp
              && Merge(left)[id].state == Merge(right)[id].state
              && Merge(left)[id].status == Merge(right)[id].status
              && Merge(left)[id].reason == Merge(right)[id].reason
    ensures id in Merge(left) && !Contested(left, id) ==> Merge(left)[id] == Merge(right)[id]
    ensures id in Merge(left) && Contested(left, id) ==> Merge(left)[id].state == Merge(right)[id].state == Unknown
  {
    MergeMeaning(left, id);
    MergeMeaning(right, id);
    assert forall t :: IsTop(left, id, t) <==> IsTop(right, id, t);
    assert Contested(left, id) <==> Contested(right, id);
  }

  // ----- Reading in chunks

  /** Merging two already merged results. */
  function Join(left: map<Uuid, Order>, right: map<Uuid, Order>): (joined: map<Uuid, Order>)
    ensures KeyedById(left) && KeyedById(right) ==> KeyedById(joined)
  {
    map id | id in left.Keys + right.Keys ::
      if id !in right then left[id] else if id !in left then right[id] else Reconcile(left[id], right[id])
  }

  lemma {:induction false} MergeAppend(left: seq<Order>, right: seq<Order>)
    ensures Merge(left + right) == Join(Merge(left), Merge(right))
  {
    if right == [] {
      assert left + right == left;
    } else {
      var rest, last := right[..|right| - 1], right[|right| - 1];
      assert (left + right)[..|left + right| - 1] == left + rest;
      MergeAppend(left, rest);
      AbsorbIntoJoin(Merge(left), Merge(rest), last);
    }
  }

  lemma AbsorbIntoJoin(left: map<Uuid, Order>, right: map<Uuid, Order>, order: Order)
    requires KeyedById(left) && KeyedById(right)
    ensures Absorb(Join(left, right), order) == Join(left, Absorb(right, order))
  {
  }

  /** `rows` lists the values of `ledger`, in any order. */
  ghost predicate Lists(rows: seq<Order>, ledger: map<Uuid, Order>) {
    && (forall o :: o in rows ==> o.id in ledger && ledger[o.id] == o)
    && (forall id :: id in ledger ==> ledger[id] in rows)
  }

  lemma MergeOfListing(rows: seq<Order>, ledger: map<Uuid, Order>)
    requires Lists(rows, ledger) && KeyedById(ledger)
    ensures Merge(rows) == ledger
  {
    forall id
      ensures id in Merge(rows) <==> id in ledger
      ensures id in ledger ==> id in Merge(rows) && Merge(rows)[id] == ledger[id]
    {
      MergeMeaning(rows, id);
      if id in ledger {
        assert ledger[id] in rows;
        assert !Contested(rows, id);
      }
    }
  }

  /** Merging is associative and idempotent: however the reads are cut into chunks, and however each
      chunk's merged result is listed, merging those results gives what one pass over all reads gives. */
  lemma {:induction false} MergeOfChunks(chunks: seq<seq<Order>>, merged: seq<seq<Order>>)
    requires |chunks| == |merged|
    requires forall i :: 0 <= i < |chunks| ==> Lists(merged[i], Merge(chunks[i]))
    ensures Merge(Flatten(merged)) == Merge(Flatten(chunks))
  {
    if chunks != [] {
      var n := |chunks| - 1;
      MergeOfChunks(chunks[..n], merged[..n]);
      MergeOfListing(merged[n], Merge(chunks[n]));
      MergeAppend(Flatten(chunks[..n]), chunks[n]);
      MergeAppend(Flatten(merged[..n]), merged[n]);
    }
  }

  lemma MergeIdempotent(orders: seq<Order>)
    ensures Merge(orders + orders) == Merge(orders)
  {
    MergeAppend(orders, orders);
    assert Join(Merge(orders), Merge(orders)) == Merge(orders);
  }

  /** Merging a list of merged results, as the poll does with one result per page. */
  function JoinAll(ledgers: seq<map<Uuid, Order>>): (joined: map<Uuid, Order>)
    ensures (forall l :: l in ledgers ==> KeyedById(l)) ==> KeyedById(joined)
  {
    if ledgers == [] then map[] else Join(JoinAll(ledgers[..|ledgers| - 1]), ledgers[|ledgers| - 1])
  }

  /** One pass over listings of all the results is that same join. */
  lemma {:induction false} JoinAllIsMerge(ledgers: seq<map<Uuid, Order>>, listings: seq<seq<Order>>)
    requires |ledgers| == |listings|
    requires forall i :: 0 <= i < |ledgers| ==> KeyedById(ledgers[i]) && Lists(listings[i], ledgers[i])
    ensures Merge(Flatten(listings)) == JoinAll(ledgers)
  {
    if ledgers != [] {
      var n := |ledgers| - 1;
      JoinAllIsMerge(ledgers[..n], listings[..n]);
      MergeOfListing(listings[n], ledgers[n]);
      MergeAppend(Flatten(listings[..n]), listings[n]);
    }
  }
}
