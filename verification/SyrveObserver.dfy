/** Turning one complete read of the provider into evidence about each linked table. */
module SyrveObserver {
  import opened Basics
  import opened SyrveOrders

  datatype CatalogTable = CatalogTable(id: Uuid, group: Uuid, isDeleted: bool)

  /** True for each part of the read whose check ended with status `ok`. */
  datatype Checks = Checks(
    connection: bool, terminalGroups: bool, restaurantSections: bool,
    posAvailability: bool, ordersByTable: bool, ordersById: bool)

  datatype Groups = Groups(active: set<Uuid>, sleeping: set<Uuid>)

  datatype Probe = Probe(
    organization: Uuid,
    checks: Checks,
    terminalGroups: Option<Groups>,
    catalogTables: Option<seq<CatalogTable>>,
    availability: Option<map<Uuid, bool>>,
    byTable: Option<seq<Order>>,
    byId: Option<seq<Order>>)

  datatype Link = Link(syrveTable: Uuid, activeIds: set<Uuid>)

  datatype TableObservation = TableObservation(
    open: set<Uuid>, closed: set<Uuid>, unknown: map<Uuid, Reason>, reason: Option<Reason>)

  function GetOr<T>(value: Option<T>, default: T): T {
    match value case Some(v) => v case None => default
  }

  /** `tables.find(...)`: the first entry wins. */
  function FindFirst(tables: seq<CatalogTable>, id: Uuid): (found: Option<CatalogTable>)
    ensures found.Some? ==> found.value in tables && found.value.id == id
    ensures found.None? ==> forall t :: t in tables ==> t.id != id
  {
    if tables == [] then None
    else if tables[0].id == id then Some(tables[0])
    else FindFirst(tables[1..], id)
  }

  /** `new Map(tables)`: the last entry wins. */
  function FindLast(tables: seq<CatalogTable>, id: Uuid): (found: Option<CatalogTable>)
    ensures found.Some? ==> found.value in tables && found.value.id == id
    ensures found.None? ==> forall t :: t in tables ==> t.id != id
  {
    if tables == [] then None
    else if tables[|tables| - 1].id == id then Some(tables[|tables| - 1])
    else FindLast(tables[..|tables| - 1], id)
  }

  function Catalogued(probe: Probe, id: Uuid): (found: Option<CatalogTable>)
    ensures found.Some? ==> found.value.id == id
  {
    FindLast(GetOr(probe.catalogTables, []), id)
  }

  predicate Alive(probe: Probe, group: Uuid) {
    probe.availability.Some? && group in probe.availability.value && probe.availability.value[group]
  }

  predicate AllReadsValid(probe: Probe, tracked: set<Uuid>) {
    && probe.checks.connection && probe.checks.terminalGroups && probe.checks.restaurantSections
    && probe.checks.posAvailability && probe.checks.ordersByTable
    && (tracked == {} || probe.checks.ordersById)
  }

  /** What one merged bill is worth, given which reads succeeded and which registers answered. */
  function Qualify(probe: Probe, valid: bool, order: Order): Order {
    if !valid then order.(status := None, state := Unknown, reason := Some(ObservationFailed))
    else if order.group.None? || !Alive(probe, order.group.value) then
      order.(state := Unknown, reason := if order.reason.Some? then order.reason else Some(UnavailablePos))
    else if exists id ::
      id in order.tables && Catalogued(probe, id).Some? && Catalogued(probe, id).value.group != order.group.value then
      order.(state := Unknown, reason := Some(OrderTerminalGroupChanged))
    else order
  }

  function ReadRows(probe: Probe): seq<Order> {
    GetOr(probe.byTable, []) + GetOr(probe.byId, [])
  }

  function ObservedOrders(probe: Probe, tracked: set<Uuid>): (orders: map<Uuid, Order>)
    ensures KeyedById(orders)
  {
    var merged := Merge(ReadRows(probe));
    map id | id in merged :: Qualify(probe, AllReadsValid(probe, tracked), merged[id])
  }

  /** The table can be judged at all: reads complete, table known and not deleted, register alive. */
  predicate Usable(probe: Probe, valid: bool, table: Uuid) {
    && valid && Catalogued(probe, table).Some?
    && !Catalogued(probe, table).value.isDeleted && Alive(probe, Catalogued(probe, table).value.group)
  }

  function TableReason(probe: Probe, valid: bool, table: Uuid, anyOpen: bool): Option<Reason> {
    if anyOpen then None
    else if probe.catalogTables.None? then Some(ObservationFailed)
    else if Catalogued(probe, table).None? then Some(MissingTable)
    else if Catalogued(probe, table).value.isDeleted then Some(DeletedTable)
    else if !probe.checks.posAvailability then Some(ObservationFailed)
    else if !Alive(probe, Catalogued(probe, table).value.group) then Some(UnavailablePos)
    else if !valid then Some(ObservationFailed)
    else Some(UnverifiedPosVisibility)
  }

  function Associated(orders: map<Uuid, Order>, table: Uuid, state: Verdict): set<Uuid> {
    set id | id in orders && table in orders[id].tables && orders[id].state == state
  }

  function OpenOn(probe: Probe, valid: bool, orders: map<Uuid, Order>, table: Uuid): set<Uuid> {
    if Usable(probe, valid, table) then Associated(orders, table, Open) else {}
  }

  /** Why a saved bill that is neither open nor closed here counts as unknown. */
  function LostReason(usable: bool, orders: map<Uuid, Order>, table: Uuid, id: Uuid): Reason {
    if !usable then ObservationFailed
    else if id !in orders then MissingOrder
    else if orders[id].reason.Some? then orders[id].reason.value
    else if table in orders[id].tables then ObservationFailed
    else OrderTableChanged
  }

  /** Evidence about one link. The contract is completeness: the three verdicts are disjoint, together
      they name every saved bill and every bill read for this table, `unknown` names nothing else,
      and a failed read or a dead register leaves no open and no closed verdict. */
  method ObserveLink(probe: Probe, valid: bool, orders: map<Uuid, Order>, link: Link)
    returns (seen: TableObservation)
    ensures seen.open !! seen.closed !! seen.unknown.Keys
    ensures seen.open == OpenOn(probe, valid, orders, link.syrveTable)
    ensures seen.closed
            == if Usable(probe, valid, link.syrveTable) then Associated(orders, link.syrveTable, Closed) else {}
    ensures seen.open + seen.closed + seen.unknown.Keys ==
            link.activeIds + (set id | id in orders && link.syrveTable in orders[id].tables)
    ensures !Usable(probe, valid, link.syrveTable) ==> seen.open == {} && seen.closed == {}
    ensures forall id :: id in seen.unknown && id in link.activeIds ==>
              seen.unknown[id] == LostReason(Usable(probe, valid, link.syrveTable), orders, link.syrveTable, id)
    ensures seen.reason == TableReason(probe, valid, link.syrveTable, seen.open != {})
  {
    var table := link.syrveTable;
    var usable := Usable(probe, valid, table);
    var here := set id | id in orders && table in orders[id].tables;
    var open := OpenOn(probe, valid, orders, table);
    var closed := if usable then Associated(orders, table, Closed) else {};
    var unresolved := UnresolvedHere(usable, orders, here);
    assert open + closed + unresolved.Keys == here;
    var unknown := AddLost(usable, orders, table, link.activeIds, open + closed, unresolved);
    assert open + closed + unknown.Keys == link.activeIds + here;
    seen := TableObservation(open, closed, unknown, TableReason(probe, valid, table, open != {}));
  }

  /** The bills read for this table that carry no usable verdict. */
  method UnresolvedHere(usable: bool, orders: map<Uuid, Order>, here: set<Uuid>) returns (unknown: map<Uuid, Reason>)
    requires here <= orders.Keys
    ensures forall id :: id in unknown <==> id in here && (!usable || orders[id].state == Unknown)
    ensures forall id :: id in unknown ==> unknown[id] == GetOr(orders[id].reason, ObservationFailed)
  {
    unknown := map[];
    var todo := here;
    while todo != {}
      invariant todo <= here
      invariant forall id :: id in unknown <==> id in here && id !in todo && (!usable || orders[id].state == Unknown)
      invariant forall id :: id in unknown ==> unknown[id] == GetOr(orders[id].reason, ObservationFailed)
    {
      var id :| id in todo;
      todo := todo - {id};
      if !usable || orders[id].state == Unknown {
        unknown := unknown[id := GetOr(orders[id].reason, ObservationFailed)];
      }
    }
  }

  /** Every saved bill without a verdict becomes unknown, and says why. */
  method AddLost(usable: bool, orders: map<Uuid, Order>, table: Uuid, saved: set<Uuid>, settled: set<Uuid>,
                 before: map<Uuid, Reason>) returns (unknown: map<Uuid, Reason>)
    ensures forall id :: id in unknown <==> id in before || (id in saved && id !in settled)
    ensures forall id :: id in unknown ==>
              unknown[id] == if id in saved && id !in settled then LostReason(usable, orders, table, id) else before[id]
  {
    unknown := before;
    var todo := saved;
    while todo != {}
      invariant todo <= saved
      invariant forall id :: id in unknown <==> id in before || (id in saved && id !in todo && id !in settled)
      invariant forall id :: id in unknown ==>
                  unknown[id] == if id in saved && id !in todo && id !in settled
                                 then LostReason(usable, orders, table, id) else before[id]
    {
      var id :| id in todo;
      todo := todo - {id};
      if id !in settled {
        unknown := unknown[id := LostReason(usable, orders, table, id)];
      }
    }
  }

  /** Whatever makes a read unusable for a table also takes the verdict away from every bill there. */
  lemma FailedReadsGiveNoVerdict(probe: Probe, tracked: set<Uuid>, table: Uuid, id: Uuid)
    requires id in ObservedOrders(probe, tracked) && table in ObservedOrders(probe, tracked)[id].tables
    requires ObservedOrders(probe, tracked)[id].state != Unknown
    ensures AllReadsValid(probe, tracked)
    ensures var order := ObservedOrders(probe, tracked)[id]; order.group.Some? && Alive(probe, order.group.value)
    ensures Catalogued(probe, table).Some? ==>
              Catalogued(probe, table).value.group == ObservedOrders(probe, tracked)[id].group.value
    ensures !Usable(probe, AllReadsValid(probe, tracked), table) ==>
              Catalogued(probe, table).None? || Catalogued(probe, table).value.isDeleted
  {
  }
}
