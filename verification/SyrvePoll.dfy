/** The poll reducer: one table's saved state against a complete read of it. */
module SyrvePoll {
  import opened Basics
  import opened SyrveOrders
  import opened SyrveObserver
  import opened SyrveState
  import opened SyrveEvidence

  /** Everything phase one and phase two look at, once the evidence is accepted. */
  datatype View = View(
    s: SyncState, orders: map<Uuid, Order>, departed: set<Uuid>, known: set<VersionRow>, visible: bool)
  {
    function Table(): Uuid { s.scope.syrveTable }

    function Opened(): set<Uuid> { Associated(orders, Table(), Open) }

    /** Closed here, or explicitly moved to other live tables. */
    function Gone(): set<Uuid> { Associated(orders, Table(), Closed) + departed }

    predicate Mentions(id: Uuid)
      requires id in orders
    {
      || Table() in orders[id].tables || id in s.active || id in s.versions
      || (orders[id].state == Unknown && orders[id].tables == {})
    }

    function Candidates(): set<Uuid> { set id | id in orders && Mentions(id) }

    /** Some saved bill has no explicit verdict, or some unresolved bill may belong here. */
    predicate UnknownSeen() {
      || (exists id :: id in s.active && id !in Opened() && id !in Gone())
      || (exists id ::
          id in orders && orders[id].state == Unknown && (orders[id].tables == {} || Table() in orders[id].tables))
    }

    function EvidenceState(id: Uuid): Verdict
      requires id in orders
    {
      if id in Opened() then Open
      else if id in Gone() then Closed
      else if id !in s.active then orders[id].state
      else Unknown
    }

    function Known(id: Uuid): set<Version> { set r | r in known && r.id == id :: r.version }

    function Read(id: Uuid): Version
      requires id in orders
    {
      Version(orders[id].timestamp, EvidenceState(id), Some(Print(orders[id])))
    }

    // Phase one, bill by bill.

    predicate Stale(id: Uuid)
      requires id in orders
    {
      || (id in s.versions && orders[id].timestamp < s.versions[id].timestamp)
      || (exists v :: v in Known(id) && orders[id].timestamp < v.timestamp)
    }

    predicate Clashes(id: Uuid)
      requires id in orders
    {
      || (id in s.versions && DiffersAt(s.versions[id], orders[id]))
      || (exists v :: v in Known(id) && DiffersAt(v, orders[id]))
    }

    predicate Repairs(id: Uuid)
      requires id in orders
    {
      id in departed && IsLegacyTransferRepair(VersionOf(s, id), Some(Read(id)))
    }

    function Assess(id: Uuid): Assessment
      requires id in orders
    {
      if Stale(id) then Ignored(true)
      else if Clashes(id) then Conflict
      else if id in s.versions && s.versions[id].state == Unknown && s.versions[id].timestamp == orders[id].timestamp
              && !Repairs(id)
      then Ignored(false)
      else Accepted(Repairs(id))
    }

    function AcceptedIds(): set<Uuid> { set id | id in Candidates() && Assess(id).Accepted? }

    function RepairIds(): set<Uuid> { set id | id in Candidates() && Assess(id) == Accepted(true) }

    function Written(): set<Uuid> { set id | id in Candidates() && !Assess(id).Ignored? }

    function Rewrite(id: Uuid): Version
      requires id in orders
    {
      if Assess(id).Conflict? then Version(orders[id].timestamp, Unknown, None) else Read(id)
    }

    /** The whole ledger before any membership changes. */
    function Prospect(): map<Uuid, Version> {
      map id | id in s.versions.Keys + Written() :: if id in Written() then Rewrite(id) else s.versions[id]
    }

    predicate CanClose() {
      visible && !UnknownSeen() && forall id :: id in Prospect() ==> Prospect()[id].state != Unknown
    }

    // Phase two.

    function Removed(): set<Uuid> { if CanClose() then AcceptedIds() * Gone() else {} }

    function NextActive(): set<Uuid> { s.active + AcceptedIds() * Opened() - Removed() }

    function NextVersions(): map<Uuid, Version> {
      if CanClose() then Prospect() else
        map id | id in Prospect() :: if id in RepairIds() then s.versions[id] else Prospect()[id]
    }

    function NextLast(): Verdict {
      if NextActive() != {} then Open else if s.active != {} && CanClose() then Closed else s.last
    }

    /** The new state, still under the old revision. */
    function Next(): SyncState {
      s.(active := NextActive(), freed := s.freed - Removed(), versions := NextVersions(), last := NextLast())
    }

    /** What phase one reports, having judged these bills. */
    function FoundIn(ids: set<Uuid>): set<Diagnostic>
      requires ids <= orders.Keys
    {
      (if exists id :: id in ids && Assess(id) == Ignored(true) then {StaleOrder} else {})
      + (if exists id :: id in ids && Assess(id).Conflict? then {ConflictingVersions} else {})
    }

    function Found(): set<Diagnostic> { FoundIn(Candidates()) }

    function Diagnostics(): set<Diagnostic> {
      Found() + Summary(UnknownSeen(), NextVersions(), visible)
    }

    /** What the reducer hands in: orders keyed by id and valid, departures elsewhere, safe rows. */
    ghost predicate Sound() {
      && Valid(s) && KeyedById(orders)
      && (forall id :: id in orders ==> ValidOrder(orders[id]))
      && (forall id :: id in departed ==>
          id in orders && Table() !in orders[id].tables && orders[id].state != Unknown && orders[id].tables != {})
    }
  }

  datatype Assessment = Ignored(stale: bool) | Conflict | Accepted(repair: bool)

  /** What the finished ledger reports. */
  function Summary(unknownSeen: bool, versions: map<Uuid, Version>, visible: bool): set<Diagnostic> {
    (if unknownSeen || (exists id :: id in versions && versions[id].state == Unknown) then {UnknownOrders} else {})
    + (if exists id :: id in versions && versions[id].state == Unknown && versions[id].fingerprint.None?
       then {ConflictingVersions} else {})
    + (if visible then {} else {VisibilityNotVerified})
  }

  predicate DiffersAt(v: Version, order: Order) {
    v.timestamp == order.timestamp && v.fingerprint != Some(Print(order))
  }

  // ----- The whole poll

  datatype PollEvent = PollEvent(fence: Fence, input: ProbeInput, visible: bool, known: set<VersionRow>)

  /** A destination can release us only if it is alive, undeleted and in the bill's own cash group. */
  predicate DestinationLive(probe: Probe, table: Uuid, group: Option<Uuid>) {
    var found := FindFirst(GetOr(probe.catalogTables, []), table);
    && found.Some? && !found.value.isDeleted && group == Some(found.value.group)
    && probe.terminalGroups.Some? && found.value.group in probe.terminalGroups.value.active
    && Alive(probe, found.value.group)
  }

  function DepartedIds(orders: map<Uuid, Order>, table: Uuid, probes: seq<Probe>): set<Uuid> {
    set id | id in orders && orders[id].state != Unknown && orders[id].tables != {} && table !in orders[id].tables
             && forall p, t :: p in probes && t in orders[id].tables ==> DestinationLive(p, t, orders[id].group)
  }

  ghost function ViewOf(s: SyncState, e: PollEvent, orders: map<Uuid, Order>): View {
    View(s, orders, DepartedIds(orders, s.scope.syrveTable, Probes(e.input)), e.known, e.visible)
  }

  ghost function ReducePoll(s: SyncState, e: PollEvent): (out: Outcome<Transition>) {
    if !Valid(s) then Thrown
    else match CheckFence(s, e.fence)
      case Misused => Thrown
      case Rejected(why) => Done(Transition(s, false, {why}))
      case Passed =>
        if exists p :: p in Probes(e.input) && p.organization != s.scope.organization then
          Done(Transition(s, false, {ScopeChanged}))
        else match EvidenceFrom(s, e.input)
          case BadEvidence => Thrown
          case NoEvidence => Done(Transition(s, false, {ObservationUnknown}))
          case Evidence(orders) =>
            if exists r :: r in e.known && !SafeTimestamp(r.version.timestamp) then Thrown
            else
              var v := ViewOf(s, e, orders);
              var next := v.Next();
              Done(Transition(if next == s then s else next.(revision := e.fence.nextRevision), next != s,
                              v.Diagnostics()))
  }

  lemma {:induction false} JoinAllValid(ledgers: seq<map<Uuid, Order>>)
    requires forall l :: l in ledgers ==> KeyedById(l) && ValidOrders(l)
    ensures ValidOrders(JoinAll(ledgers)) && KeyedById(JoinAll(ledgers))
  {
    if ledgers != [] {
      var n := |ledgers| - 1;
      JoinAllValid(ledgers[..n]);
      assert ledgers[n] in ledgers;
      forall id | id in JoinAll(ledgers) ensures ValidOrder(JoinAll(ledgers)[id]) {
        assert id in JoinAll(ledgers[..n]) || id in ledgers[n];
      }
    }
  }

  lemma EvidenceIsValid(s: SyncState, input: ProbeInput)
    requires EvidenceFrom(s, input).Evidence?
    ensures KeyedById(EvidenceFrom(s, input).orders) && ValidOrders(EvidenceFrom(s, input).orders)
  {
    var pages, n := PagesFrom(s, input), |Plan(s)|;
    var ledgers := Gather(pages, n).ledgers;
    GatheredPages(pages, n);
    forall l | l in ledgers ensures KeyedById(l) && ValidOrders(l) {
      var i :| 0 <= i < n && ledgers[i] == l;
      PageAt(s, input, i);
    }
    JoinAllValid(ledgers);
  }

  lemma ViewIsSound(s: SyncState, e: PollEvent)
    requires Valid(s) && EvidenceFrom(s, e.input).Evidence?
    ensures ViewOf(s, e, EvidenceFrom(s, e.input).orders).Sound()
  {
    EvidenceIsValid(s, e.input);
  }

  // ----- What one poll keeps

  lemma PollKeepsValid(v: View)
    requires v.Sound()
    ensures Valid(v.Next())
  {
  }

  lemma PollAdvances(v: View)
    requires v.Sound()
    ensures Advances(v.s.versions, v.NextVersions())
  {
  }

  // ----- The reducer itself, updating its local maps bill by bill

  lemma FoundGrows(v: View, ids: set<Uuid>, id: Uuid)
    requires ids <= v.orders.Keys && id in v.orders
    ensures v.FoundIn(ids + {id}) == v.FoundIn(ids)
            + (if v.Assess(id) == Ignored(true) then {StaleOrder}
               else if v.Assess(id).Conflict? then {ConflictingVersions} else {})
  {
  }

  /** Phase one: the prospective ledger, without touching membership. */
  method DeriveLedger(v: View) returns (versions: map<Uuid, Version>, accepted: set<Uuid>, repairs: set<Uuid>,
                      diagnostics: set<Diagnostic>)
    ensures versions == v.Prospect()
    ensures accepted == v.AcceptedIds() && repairs == v.RepairIds()
    ensures diagnostics == v.Found()
  {
    versions, accepted, repairs, diagnostics := v.s.versions, {}, {}, {};
    var todo := v.Candidates();
    while todo != {}
      invariant todo <= v.Candidates()
      invariant forall id :: id in versions <==> id in v.s.versions || (id in v.Written() && id !in todo)
      invariant forall id :: id in versions ==>
                  versions[id] == if id in v.Written() && id !in todo then v.Rewrite(id) else v.s.versions[id]
      invariant accepted == v.AcceptedIds() - todo && repairs == v.RepairIds() - todo
      invariant diagnostics == v.FoundIn(v.Candidates() - todo)
    {
      var id :| id in todo;
      ghost var before := todo;
      todo := todo - {id};
      assert v.Candidates() - todo == (v.Candidates() - before) + {id};
      FoundGrows(v, v.Candidates() - before, id);
      var order := v.orders[id];
      if v.Stale(id) {
        assert v.Assess(id) == Ignored(true);
        diagnostics := diagnostics + {StaleOrder};
      } else if v.Clashes(id) {
        assert v.Assess(id) == Conflict;
        versions := versions[id := Version(order.timestamp, Unknown, None)];
        diagnostics := diagnostics + {ConflictingVersions};
      } else {
        var legacyRepair := v.Repairs(id);
        if id in v.s.versions && v.s.versions[id].state == Unknown && order.timestamp == v.s.versions[id].timestamp
          && !legacyRepair
        {
          assert v.Assess(id) == Ignored(false);
        } else {
          assert v.Assess(id) == Accepted(legacyRepair);
          if legacyRepair { repairs := repairs + {id}; }
          versions := versions[id := v.Read(id)];
          accepted := accepted + {id};
        }
      }
    }
  }

  /** Phase two: membership and overrides, once every prospective outcome is known. */
  method ApplyMembership(v: View, accepted: set<Uuid>, canClose: bool) returns (active: set<Uuid>, freed: set<Uuid>)
    requires v.Sound() && accepted == v.AcceptedIds() && canClose == v.CanClose()
    ensures active == v.NextActive() && freed == v.s.freed - v.Removed()
  {
    active, freed := v.s.active, v.s.freed;
    var todo := accepted;
    while todo != {}
      invariant todo <= accepted
      invariant active == v.s.active
                + (accepted - todo) * v.Opened() - (if canClose then (accepted - todo) * v.Gone() else {})
      invariant freed == v.s.freed - (if canClose then (accepted - todo) * v.Gone() else {})
    {
      var id :| id in todo;
      ghost var before := todo;
      todo := todo - {id};
      assert accepted - todo == (accepted - before) + {id};
      assert !(id in v.Opened() && id in v.Gone());
      if id in v.Opened() {
        active := active + {id};
      } else if id in v.Gone() && canClose {
        active, freed := active - {id}, freed - {id};
      }
    }
    assert accepted - todo == accepted;
  }

  method ReduceSyrveOrderState(s: SyncState, e: PollEvent) returns (out: Outcome<Transition>)
    ensures out == ReducePoll(s, e)
    ensures Valid(s) && !Current(s, e.fence) ==> out == Done(Transition(s, false, {Refusal(s, e.fence)}))
  {
    if !Valid(s) { return Thrown; }
    var fencing := CheckFence(s, e.fence);
    if fencing.Misused? { return Thrown; }
    if fencing.Rejected? { return Done(Transition(s, false, {fencing.why})); }
    if exists p :: p in Probes(e.input) && p.organization != s.scope.organization {
      return Done(Transition(s, false, {ScopeChanged}));
    }
    var evidence := CollectOrderEvidence(s, e.input);
    if evidence.BadEvidence? { return Thrown; }
    if evidence.NoEvidence? { return Done(Transition(s, false, {ObservationUnknown})); }
    if exists r :: r in e.known && !SafeTimestamp(r.version.timestamp) { return Thrown; }

    var v := View(s, evidence.orders, DepartedIds(evidence.orders, s.scope.syrveTable, Probes(e.input)), e.known,
                  e.visible);
    ViewIsSound(s, e);
    var next, diagnostics := Weigh(v);
    out := Done(Transition(if next != s then next.(revision := e.fence.nextRevision) else s, next != s, diagnostics));
  }

  /** Both phases over one accepted view. */
  method Weigh(v: View) returns (next: SyncState, diagnostics: set<Diagnostic>)
    requires v.Sound()
    ensures next == v.Next() && diagnostics == v.Diagnostics()
  {
    var versions, accepted, repairs, found := DeriveLedger(v);
    var unknownOrders := v.UnknownSeen();
    var canClose := v.visible && !unknownOrders && forall id :: id in versions ==> versions[id].state != Unknown;
    if !canClose {
      versions := RestoreRepairs(v, versions, repairs);
    }
    diagnostics := found + Summary(unknownOrders, versions, v.visible);
    var active, freed := ApplyMembership(v, accepted, canClose);
    var last := if active != {} then Open else if v.s.active != {} && canClose then Closed else v.s.last;
    next := v.s.(active := active, freed := freed, versions := versions, last := last);
  }

  /** A repair that cannot remove its bill keeps the old unknown record. */
  method RestoreRepairs(v: View, prospect: map<Uuid, Version>, repairs: set<Uuid>)
    returns (versions: map<Uuid, Version>)
    requires prospect == v.Prospect() && repairs == v.RepairIds() && !v.CanClose()
    ensures versions == v.NextVersions()
  {
    versions := prospect;
    var todo := repairs;
    while todo != {}
      invariant todo <= repairs
      invariant versions.Keys == prospect.Keys
      invariant forall id :: id in versions ==>
                  versions[id] == if id in repairs && id !in todo then v.s.versions[id] else prospect[id]
    {
      var id :| id in todo;
      todo := todo - {id};
      versions := versions[id := v.s.versions[id]];
    }
  }
}
