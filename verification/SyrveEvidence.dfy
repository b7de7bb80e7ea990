/** What a poll must ask about one table, and the evidence its pages give together or not at all. */
module SyrveEvidence {
  import opened Basics
  import opened SyrveOrders
  import opened SyrveObserver
  import opened SyrveState

  const MAX_RESPONSE_ORDERS: nat := 2_000

  /** One independently bounded read for these saved bills. */
  datatype Batch = Batch(orderIds: set<Uuid>, probe: Probe)

  datatype ProbeInput = Single(probe: Probe) | Paged(batches: seq<Batch>)

  // ----- Which saved bills a poll must ask about

  function IdsToObserve(s: SyncState): set<Uuid> {
    s.active + set id | id in s.versions && s.versions[id].state == Unknown
  }

  ghost predicate SortedListing(row: seq<Uuid>, ids: set<Uuid>) {
    Elements(row) == ids && Increasing(row)
  }

  function Pages(row: seq<Uuid>): (pages: seq<set<Uuid>>)
    decreases |row|
  {
    if |row| == 0 then []
    else if |row| <= MAX_RESPONSE_ORDERS then [Elements(row)]
    else [Elements(row[..MAX_RESPONSE_ORDERS])] + Pages(row[MAX_RESPONSE_ORDERS..])
  }

  ghost function Sorted(ids: set<Uuid>): (row: seq<Uuid>)
    ensures SortedListing(row, ids)
  {
    if ids == {} then []
    else
      var least := Least(ids);
      var rest := Sorted(ids - {least});
      ElementsAppend([least], rest);
      assert forall r :: r in rest ==> r in Elements(rest);
      [least] + rest
  }

  lemma ElementsAppend(a: seq<Uuid>, b: seq<Uuid>)
    ensures Elements(a + b) == Elements(a) + Elements(b)
  {
  }

  ghost function Least(ids: set<Uuid>): (least: Uuid)
    requires ids != {}
    ensures least in ids && forall id :: id in ids ==> least <= id
  {
    var some :| some in ids;
    if ids == {some} then some
    else
      assert (ids - {some}) + {some} == ids;
      var other := Least(ids - {some});
      if some < other then some else other
  }

  ghost function Plan(s: SyncState): (plan: seq<set<Uuid>>)
    ensures plan != []
  {
    var ids := IdsToObserve(s);
    if ids == {} then [{}]
    else
      assert Elements(Sorted(ids)) != Elements([]);
      Pages(Sorted(ids))
  }

  /** The first page and what is left. */
  lemma FirstPage(row: seq<Uuid>) returns (head: seq<Uuid>, tail: seq<Uuid>)
    requires row != []
    ensures row == head + tail && 0 < |head| <= MAX_RESPONSE_ORDERS
    ensures Pages(row) == [Elements(head)] + Pages(tail)
  {
    var n := if |row| <= MAX_RESPONSE_ORDERS then |row| else MAX_RESPONSE_ORDERS;
    head, tail := row[..n], row[n..];
    if |row| <= MAX_RESPONSE_ORDERS { assert head == row && tail == []; }
  }

  predicate Increasing(row: seq<Uuid>) { forall i, j :: 0 <= i < j < |row| ==> row[i] < row[j] }

  lemma IncreasingParts(head: seq<Uuid>, tail: seq<Uuid>)
    requires Increasing(head + tail)
    ensures Increasing(head) && Increasing(tail)
    ensures forall id :: id in head ==> id !in tail
  {
    var row := head + tail;
    forall i, j | 0 <= i < j < |head| ensures head[i] < head[j] { assert row[i] < row[j]; }
    forall i, j | 0 <= i < j < |tail| ensures tail[i] < tail[j] { assert row[|head| + i] < row[|head| + j]; }
    forall i, j | 0 <= i < |head| && 0 <= j < |tail| ensures head[i] != tail[j] { assert row[i] < row[|head| + j]; }
  }

  /** The pages cover exactly the wanted bills. */
  lemma {:induction false} PagesCover(row: seq<Uuid>)
    ensures forall id :: id in row <==> exists p :: p in Pages(row) && id in p
    decreases |row|
  {
    if row != [] {
      var head, tail := FirstPage(row);
      PagesCover(tail);
      var first, rest := Elements(head), Pages(tail);
      forall id ensures id in row <==> exists p :: p in Pages(row) && id in p {
        assert id in row <==> id in head || id in tail;
        if id in head { assert first in Pages(row) && id in first; }
        if id in tail { var p :| p in rest && id in p; assert p in Pages(row); }
      }
    }
  }

  /** Each page fits one bounded read, and no bill is on two. */
  lemma {:induction false} PagesAreBounded(row: seq<Uuid>)
    requires Increasing(row)
    ensures forall p :: p in Pages(row) ==> 0 < |p| <= MAX_RESPONSE_ORDERS
    ensures forall i, j :: 0 <= i < j < |Pages(row)| ==> Pages(row)[i] !! Pages(row)[j]
    decreases |row|
  {
    if row != [] {
      var head, tail := FirstPage(row);
      IncreasingParts(head, tail);
      ElementsCount(head);
      PagesAreBounded(tail);
      PagesCover(tail);
      var first, rest := Elements(head), Pages(tail);
      forall i, j | 0 <= i < j < |Pages(row)| ensures Pages(row)[i] !! Pages(row)[j] {
        assert Pages(row)[j] == rest[j - 1];
        if i == 0 {
          forall id | id in rest[j - 1] ensures id !in first { assert rest[j - 1] in rest && id in tail; }
        } else {
          assert Pages(row)[i] == rest[i - 1];
        }
      }
    }
  }

  lemma {:induction false} ElementsCount(row: seq<Uuid>)
    requires Increasing(row)
    ensures |Elements(row)| == |row|
  {
    if row != [] {
      var rest, last := row[..|row| - 1], row[|row| - 1];
      ElementsCount(rest);
      assert row == rest + [last];
      assert Elements(row) == Elements(rest) + {last};
    }
  }

  lemma EmptyElements(row: seq<Uuid>)
    ensures Elements(row) == {} <==> row == []
  {
    if row != [] { assert row[0] in Elements(row); }
  }

  lemma {:induction false} SortedListingUnique(a: seq<Uuid>, b: seq<Uuid>, ids: set<Uuid>)
    requires SortedListing(a, ids) && SortedListing(b, ids)
    ensures a == b
  {
    EmptyElements(a);
    EmptyElements(b);
    if ids != {} {
      assert a[0] in Elements(b);
      assert b[0] in Elements(a);
      assert a[0] == b[0];
      assert Elements(a[1..]) == ids - {a[0]};
      assert Elements(b[1..]) == ids - {a[0]};
      SortedListingUnique(a[1..], b[1..], ids - {a[0]});
    }
  }

  /** Every active or still unknown bill is asked about, in pairwise disjoint bounded pages. */
  method GetSyrveOrderIdsToObserve(s: SyncState) returns (plan: seq<set<Uuid>>)
    ensures plan == Plan(s) && plan != []
    ensures forall id :: id in IdsToObserve(s) <==> exists p :: p in plan && id in p
    ensures forall p :: p in plan ==> |p| <= MAX_RESPONSE_ORDERS
    ensures forall i, j :: 0 <= i < j < |plan| ==> plan[i] !! plan[j]
  {
    var ids := IdsToObserve(s);
    if ids == {} {
      plan := [{}];
      return;
    }
    var row: seq<Uuid> := [];
    var todo := ids;
    while todo != {}
      invariant todo <= ids
      invariant SortedListing(row, ids - todo)
      invariant forall r, t :: r in row && t in todo ==> r < t
    {
      ghost var least := Least(todo);
      assert forall t :: t in todo ==> least <= t;
      var id :| id in todo && forall t :: t in todo ==> id <= t;
      assert forall r :: r in row ==> r < id;
      ElementsAppend(row, [id]);
      assert (ids - todo) + {id} == ids - (todo - {id});
      var longer := row + [id];
      assert forall i, j :: 0 <= i < j < |longer| ==> longer[i] < longer[j] by {
        assert forall i :: 0 <= i < |row| ==> row[i] in row;
      }
      row, todo := longer, todo - {id};
    }
    assert ids - todo == ids;
    SortedListingUnique(row, Sorted(ids), ids);
    PagesCover(row);
    PagesAreBounded(row);
    assert forall id :: id in ids <==> id in row;
    plan := Pages(row);
  }

  // ----- Evidence from every page

  predicate ValidOrder(order: Order) {
    && SafeTimestamp(order.timestamp)
    && (order.state == Open ==> order.status == Some(StatusNew) || order.status == Some(StatusBill))
    && (order.state == Closed ==> order.status == Some(StatusClosed) || order.status == Some(StatusDeleted))
  }

  /** One page by itself: nothing to go by, malformed, or what it saw and the cash group of the table. */
  datatype Page = PageRefused | PageInvalid | PageSeen(orders: map<Uuid, Order>, group: Uuid)

  function ReadPage(s: SyncState, planned: set<Uuid>, batch: Batch, paged: bool): (page: Page)
    ensures page.PageSeen? ==> KeyedById(page.orders) && |batch.orderIds| <= MAX_RESPONSE_ORDERS
  {
    var probe, requested, table := batch.probe, batch.orderIds, s.scope.syrveTable;
    if |requested| > MAX_RESPONSE_ORDERS then PageInvalid
    else if requested != planned then PageRefused
    else if probe.organization != s.scope.organization then PageRefused
    else if probe.byTable.None? || |probe.byTable.value| > MAX_RESPONSE_ORDERS then PageRefused
    else if requested != {} && (!probe.checks.ordersById || probe.byId.None?) then PageRefused
    else if probe.byId.Some? && |probe.byId.value| > MAX_RESPONSE_ORDERS then PageRefused
    else if paged && probe.byId.Some? && exists o :: o in probe.byId.value && o.id !in requested then PageInvalid
    else
      var tracked := s.active * requested;
      var valid, orders := AllReadsValid(probe, tracked), ObservedOrders(probe, tracked);
      var reason := TableReason(probe, valid, table, OpenOn(probe, valid, orders, table) != {});
      if reason != None && reason != Some(UnverifiedPosVisibility) then PageRefused
      else PageSeen(orders, FindFirst(GetOr(probe.catalogTables, []), table).value.group)
  }

  function PagesOf(s: SyncState, plan: seq<set<Uuid>>, batches: seq<Batch>, paged: bool): (pages: seq<Page>)
    requires |plan| == |batches|
    ensures |pages| == |plan|
  {
    seq(|plan|, i requires 0 <= i < |plan| => ReadPage(s, plan[i], batches[i], paged))
  }

  predicate ValidOrders(orders: map<Uuid, Order>) {
    forall id :: id in orders ==> ValidOrder(orders[id])
  }

  datatype Reading = Refused | Invalid | Read(ledgers: seq<map<Uuid, Order>>, group: Option<Uuid>)

  /** The first n pages: all must show one cash group, and the first page that fails decides. */
  function Gather(pages: seq<Page>, n: nat): (read: Reading)
    requires n <= |pages|
  {
    if n == 0 then Read([], None)
    else match Gather(pages, n - 1)
      case Refused => Refused
      case Invalid => Invalid
      case Read(ledgers, group) =>
        match pages[n - 1]
        case PageRefused => Refused
        case PageInvalid => Invalid
        case PageSeen(orders, found) =>
          if group.Some? && found != group.value then Refused
          else if !ValidOrders(orders) then Invalid else Read(ledgers + [orders], Some(found))
  }

  lemma {:induction false} FailedPageDecides(pages: seq<Page>, n: nat, m: nat)
    requires n <= m <= |pages| && !Gather(pages, n).Read?
    ensures Gather(pages, m) == Gather(pages, n)
    decreases m
  {
    if n < m { FailedPageDecides(pages, n, m - 1); }
  }

  /** A reading that succeeds holds the bills of every page, all of them valid. */
  lemma {:induction false} GatheredPages(pages: seq<Page>, n: nat)
    requires n <= |pages| && Gather(pages, n).Read?
    ensures |Gather(pages, n).ledgers| == n
    ensures forall i :: 0 <= i < n ==>
              pages[i].PageSeen? && Gather(pages, n).ledgers[i] == pages[i].orders && ValidOrders(pages[i].orders)
  {
    if n > 0 { GatheredPages(pages, n - 1); }
  }

  datatype Evidence = NoEvidence | BadEvidence | Evidence(orders: map<Uuid, Order>)

  ghost function Batches(s: SyncState, input: ProbeInput): seq<Batch> {
    match input
    case Single(probe) => [Batch(Plan(s)[0], probe)]
    case Paged(batches) => batches
  }

  function Probes(input: ProbeInput): seq<Probe> {
    match input
    case Single(probe) => [probe]
    case Paged(batches) => seq(|batches|, i requires 0 <= i < |batches| => batches[i].probe)
  }

  ghost function PagesFrom(s: SyncState, input: ProbeInput): (pages: seq<Page>)
    requires |Batches(s, input)| == |Plan(s)|
    ensures |pages| == |Plan(s)|
  {
    PagesOf(s, Plan(s), Batches(s, input), input.Paged?)
  }

  /** All pages together, or nothing: a missing, extra or failed page leaves no evidence at all. */
  ghost function EvidenceFrom(s: SyncState, input: ProbeInput): (evidence: Evidence) {
    if |Batches(s, input)| != |Plan(s)| then NoEvidence
    else match Gather(PagesFrom(s, input), |Plan(s)|)
      case Refused => NoEvidence
      case Invalid => BadEvidence
      case Read(ledgers, _) => Evidence(JoinAll(ledgers))
  }

  lemma PageAt(s: SyncState, input: ProbeInput, i: nat)
    requires |Batches(s, input)| == |Plan(s)| && i < |Plan(s)|
    ensures PagesFrom(s, input)[i] == ReadPage(s, Plan(s)[i], Batches(s, input)[i], input.Paged?)
  {
  }

  method CollectOrderEvidence(s: SyncState, input: ProbeInput) returns (evidence: Evidence)
    ensures evidence == EvidenceFrom(s, input)
  {
    var plan := GetSyrveOrderIdsToObserve(s);
    var batches := if input.Paged? then input.batches else [Batch(plan[0], input.probe)];
    if |batches| != |plan| { return NoEvidence; }
    var read := GatherPages(PagesOf(s, plan, batches, input.Paged?));
    match read
    case Refused => return NoEvidence;
    case Invalid => return BadEvidence;
    case Read(ledgers, _) => return Evidence(JoinAll(ledgers));
  }

  /** Page after page, until one fails. */
  method GatherPages(pages: seq<Page>) returns (read: Reading)
    ensures read == Gather(pages, |pages|)
  {
    var ledgers: seq<map<Uuid, Order>> := [];
    var tableGroup: Option<Uuid> := None;
    for i := 0 to |pages|
      invariant Gather(pages, i) == Read(ledgers, tableGroup)
    {
      var page := pages[i];
      if page.PageRefused? || (page.PageSeen? && tableGroup.Some? && page.group != tableGroup.value) {
        FailedPageDecides(pages, i + 1, |pages|);
        return Refused;
      }
      if page.PageInvalid? || !ValidOrders(page.orders) {
        FailedPageDecides(pages, i + 1, |pages|);
        return Invalid;
      }
      ledgers := ledgers + [page.orders];
      tableGroup := Some(page.group);
    }
    read := Read(ledgers, tableGroup);
  }
}
