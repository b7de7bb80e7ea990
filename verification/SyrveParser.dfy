/** Which provider responses are accepted at all, and what an accepted bill says. A field is None where its
    JSON value has the wrong shape. */
module SyrveParser {
  import opened Basics
  import opened SyrveOrders
  import opened SyrveObserver
  import opened SyrveState
  import opened SyrveEvidence

  const MAX_CATALOG_TABLES: nat := 2_000
  const MAX_REGISTERS: nat := 100

  datatype Creation = Success | InProgress | Failed | Unrecognized

  /** A status this program knows, another short text, or anything else. */
  datatype StatusText = Known(status: OrderStatus) | Foreign | Malformed

  datatype RawBody = RawBody(tables: Option<seq<Uuid>>, group: Option<Uuid>, status: StatusText)

  datatype RawOrder = RawOrder(
    id: Option<Uuid>, organization: Option<Uuid>, timestamp: Option<int>, creation: Creation, body: Option<RawBody>)

  datatype Payload<T> = Payload(correlated: bool, rows: Option<seq<Option<T>>>)

  /** What was asked: bills on these tables, or these bills. */
  datatype Query = ByTable(tables: set<Uuid>) | ById(ids: set<Uuid>)

  predicate AcceptableBody(body: RawBody, query: Query) {
    && body.tables.Some? && Distinct(body.tables.value) && 0 < |body.tables.value| <= MAX_CATALOG_TABLES
    && body.group.Some? && body.status != Malformed
    && (query.ByTable? ==> Elements(body.tables.value) * query.tables != {})
  }

  /** The body of a bill still being created, or whose creation failed, is never looked at. */
  predicate Acceptable(row: Option<RawOrder>, organization: Uuid, query: Query) {
    && row.Some? && row.value.id.Some? && row.value.organization == Some(organization)
    && row.value.timestamp.Some? && SafeTimestamp(row.value.timestamp.value)
    && row.value.creation != Unrecognized
    && (query.ById? ==> row.value.id.value in query.ids)
    && (row.value.creation == Success ==> row.value.body.Some? && AcceptableBody(row.value.body.value, query))
  }

  function VerdictOf(status: StatusText): Verdict {
    if status == Known(StatusNew) || status == Known(StatusBill) then Open
    else if status.Known? then Closed else Unknown
  }

  function Decode(row: Option<RawOrder>, organization: Uuid, query: Query): (order: Order)
    requires Acceptable(row, organization, query)
    ensures ValidOrder(order) && order.id == row.value.id.value
    ensures order.state != Unknown ==> order.tables != {} && order.group.Some?
    ensures order.state == Unknown <==> order.reason.Some?
  {
    var raw := row.value;
    if raw.creation != Success then
      Order(raw.id.value, raw.timestamp.value, None, {}, None, Unknown,
            Some(if raw.creation == Failed then CreationError else CreationInProgress))
    else
      var body := raw.body.value;
      assert body.tables.value[0] in Elements(body.tables.value);
      assert body.status.Known? ==> var known := body.status.status;
        known.StatusNew? || known.StatusBill? || known.StatusClosed? || known.StatusDeleted?;
      Order(raw.id.value, raw.timestamp.value, if body.status.Known? then Some(body.status.status) else None,
            Elements(body.tables.value), body.group, VerdictOf(body.status),
            if body.status.Known? then None else Some(UnknownOrderStatus))
  }

  ghost predicate DistinctOrders(rows: seq<Option<RawOrder>>) {
    forall i, j :: 0 <= i < j < |rows| && rows[i].Some? && rows[j].Some? ==> rows[i].value.id != rows[j].value.id
  }

  /** A response is taken whole or not at all: every row acceptable and no bill twice. */
  method ParseSyrveOrders(payload: Payload<RawOrder>, organization: Uuid, query: Query)
    returns (out: Outcome<seq<Order>>)
    ensures out.Done? <==>
            && payload.correlated && payload.rows.Some? && |payload.rows.value| <= MAX_RESPONSE_ORDERS
            && (forall row :: row in payload.rows.value ==> Acceptable(row, organization, query))
            && DistinctOrders(payload.rows.value)
    ensures out.Done? ==>
              && |out.value| == |payload.rows.value|
              && forall i :: 0 <= i < |out.value| ==>
                   Acceptable(payload.rows.value[i], organization, query)
                     && out.value[i] == Decode(payload.rows.value[i], organization, query)
  {
    if !payload.correlated || payload.rows.None? || |payload.rows.value| > MAX_RESPONSE_ORDERS { return Thrown; }
    var rows := payload.rows.value;
    var seen: set<Uuid>, orders: seq<Order> := {}, [];
    for i := 0 to |rows|
      invariant |orders| == i
      invariant forall k :: 0 <= k < i ==>
                  Acceptable(rows[k], organization, query) && orders[k] == Decode(rows[k], organization, query)
      invariant forall id :: id in seen <==> exists k :: 0 <= k < i && orders[k].id == id
      invariant forall j, k :: 0 <= j < k < i ==> orders[j].id != orders[k].id
    {
      if !Acceptable(rows[i], organization, query) {
        assert rows[i] in rows;
        return Thrown;
      }
      if rows[i].value.id.value in seen {
        var k :| 0 <= k < i && orders[k].id == rows[i].value.id.value;
        assert rows[k].value.id == rows[i].value.id;
        return Thrown;
      }
      seen, orders := seen + {rows[i].value.id.value}, orders + [Decode(rows[i], organization, query)];
    }
    out := Done(orders);
  }

  datatype RawRegister = RawRegister(group: Option<Uuid>, organization: Option<Uuid>, alive: Option<bool>)

  datatype Register = Register(group: Uuid, alive: bool)

  predicate AcceptableRegister(row: Option<RawRegister>, organization: Uuid, groups: seq<Uuid>) {
    && row.Some? && row.value.group.Some? && row.value.group.value in groups
    && row.value.organization == Some(organization) && row.value.alive.Some?
  }

  function DecodeRegister(row: Option<RawRegister>, organization: Uuid, groups: seq<Uuid>): Register
    requires AcceptableRegister(row, organization, groups)
  {
    Register(row.value.group.value, row.value.alive.value)
  }

  ghost predicate DistinctRegisters(rows: seq<Option<RawRegister>>) {
    forall i, j :: 0 <= i < j < |rows| && rows[i].Some? && rows[j].Some? ==> rows[i].value.group != rows[j].value.group
  }

  /** Accepted only if every row is acceptable, none repeats a register, and there are as many as were asked about. */
  method ParsePosAvailability(payload: Payload<RawRegister>, organization: Uuid,
                              groups: seq<Uuid>) returns (out: Outcome<seq<Register>>)
    ensures out.Done? <==>
            && payload.correlated && payload.rows.Some? && |payload.rows.value| <= MAX_REGISTERS
            && (forall row :: row in payload.rows.value ==> AcceptableRegister(row, organization, groups))
            && DistinctRegisters(payload.rows.value) && |payload.rows.value| == |groups|
    ensures out.Done? ==>
              && |out.value| == |payload.rows.value|
              && forall i :: 0 <= i < |out.value| ==>
                   AcceptableRegister(payload.rows.value[i], organization, groups)
                   && out.value[i] == DecodeRegister(payload.rows.value[i], organization, groups)
  {
    if !payload.correlated || payload.rows.None? || |payload.rows.value| > MAX_REGISTERS { return Thrown; }
    var rows := payload.rows.value;
    var seen: set<Uuid>, registers: seq<Register> := {}, [];
    for i := 0 to |rows|
      invariant |registers| == i == |seen|
      invariant forall k :: 0 <= k < i ==>
                  AcceptableRegister(rows[k], organization, groups)
                    && registers[k] == DecodeRegister(rows[k], organization, groups)
      invariant forall id :: id in seen <==> exists k :: 0 <= k < i && registers[k].group == id
      invariant forall j, k :: 0 <= j < k < i ==> registers[j].group != registers[k].group
    {
      if !AcceptableRegister(rows[i], organization, groups) {
        assert rows[i] in rows;
        return Thrown;
      }
      if rows[i].value.group.value in seen {
        var k :| 0 <= k < i && registers[k].group == rows[i].value.group.value;
        assert rows[k].value.group == rows[i].value.group;
        return Thrown;
      }
      seen := seen + {rows[i].value.group.value};
      registers := registers + [DecodeRegister(rows[i], organization, groups)];
    }
    if |seen| != |groups| { return Thrown; }
    out := Done(registers);
  }

  function GroupsOf(registers: seq<Register>): set<Uuid> { set r | r in registers :: r.group }

  lemma {:induction false} GroupCount(registers: seq<Register>)
    requires forall i, j :: 0 <= i < j < |registers| ==> registers[i].group != registers[j].group
    ensures |GroupsOf(registers)| == |registers|
  {
    if registers != [] {
      var rest, last := registers[..|registers| - 1], registers[|registers| - 1];
      GroupCount(rest);
      assert registers == rest + [last];
      assert GroupsOf(registers) == GroupsOf(rest) + {last.group};
    }
  }

  /** An accepted answer covers every register asked about: an omitted one is not taken for a live one. */
  lemma AvailabilityIsComplete(registers: seq<Register>, groups: seq<Uuid>)
    requires |registers| == |groups| && forall r :: r in registers ==> r.group in groups
    requires forall i, j :: 0 <= i < j < |registers| ==> registers[i].group != registers[j].group
    ensures forall g :: g in groups <==> exists r :: r in registers && r.group == g
  {
    GroupCount(registers);
    AllSeen(GroupsOf(registers), groups);
    forall g ensures g in groups <==> exists r :: r in registers && r.group == g {
      assert g in groups <==> g in GroupsOf(registers);
    }
  }

  lemma {:induction false} ElementsAtMost(row: seq<Uuid>)
    ensures |Elements(row)| <= |row|
  {
    if row != [] {
      var rest, last := row[..|row| - 1], row[|row| - 1];
      ElementsAtMost(rest);
      assert row == rest + [last];
      assert Elements(row) == Elements(rest) + {last};
    }
  }

  lemma AllSeen(seen: set<Uuid>, groups: seq<Uuid>)
    requires |seen| == |groups| && forall id :: id in seen ==> id in groups
    ensures seen == Elements(groups)
  {
    ElementsAtMost(groups);
    assert Elements(groups) == seen + (Elements(groups) - seen);
    assert |Elements(groups) - seen| == 0;
  }

  // ----- Accepted responses make valid evidence

  lemma {:induction false} MergeKeepsValid(rows: seq<Order>)
    requires forall o :: o in rows ==> ValidOrder(o)
    ensures ValidOrders(Merge(rows))
  {
    if rows != [] {
      var rest, last := rows[..|rows| - 1], rows[|rows| - 1];
      MergeKeepsValid(rest);
      assert last in rows;
    }
  }

  /** Bills read from accepted responses never make a poll throw: merged and qualified, they stay valid. */
  lemma ParsedBillsStayValid(probe: Probe, tracked: set<Uuid>)
    requires forall o :: o in ReadRows(probe) ==> ValidOrder(o)
    ensures ValidOrders(ObservedOrders(probe, tracked))
  {
    MergeKeepsValid(ReadRows(probe));
  }
}
