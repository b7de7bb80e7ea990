/** The webhook reducer: one bill's notification applied to every linked table at once. */
module SyrveWebhook {
  import opened Basics
  import opened SyrveOrders
  import opened SyrveObserver
  import opened SyrveState
  import opened SyrveEvidence
  import opened SyrvePollTheorems

  /** The catalogue and bills of the last complete read. */
  datatype Topology = Topology(
    organization: Uuid, configurationRevision: Uuid, tables: seq<CatalogTable>,
    liveGroups: set<Uuid>, visibleTables: set<Uuid>, orders: set<Order>)

  datatype WebhookTransition = WebhookTransition(transition: Transition, status: Option<TableEvent>)

  /** One notification against all tables. */
  datatype Hook = Hook(states: seq<SyncState>, order: Order, topology: Topology) {
    predicate Associated(s: SyncState) { s.scope.syrveTable in order.tables }

    /** Something anywhere already knows a newer version of this bill. */
    predicate Stale() {
      || (exists s :: s in states && order.id in s.versions && s.versions[order.id].timestamp > order.timestamp)
      || (exists o :: o in topology.orders && o.id == order.id && o.timestamp > order.timestamp)
    }

    /** Something anywhere knows this very version differently. */
    predicate Clashes() {
      || (exists s :: s in states && order.id in s.versions && s.versions[order.id].timestamp == order.timestamp
                      && s.versions[order.id].fingerprint != Some(Print(order)))
      || (exists o ::
          o in topology.orders && o.id == order.id && o.timestamp == order.timestamp && Print(o) != Print(order))
    }

    /** An unassociated pending bill is fenced on every link. */
    predicate Related(s: SyncState) {
      Associated(s) || order.id in s.versions || (order.state == Unknown && order.tables == {})
    }

    predicate Affected(s: SyncState) { Associated(s) || order.id in s.active }

    predicate LiveTable(table: Uuid, group: Option<Uuid>) {
      var found := FindFirst(topology.tables, table);
      && found.Some? && !found.value.isDeleted && found.value.group in topology.liveGroups
      && (group.None? || found.value.group == group.value)
    }

    predicate TopologyFits() {
      && (forall t :: t in order.tables ==> LiveTable(t, order.group))
      && (forall s :: s in states && Affected(s) ==>
          s.scope.syrveTable in topology.visibleTables && LiveTable(s.scope.syrveTable, None))
    }

    function OutcomeFor(s: SyncState): Verdict {
      if order.state == Unknown then Unknown else if Associated(s) then order.state else Closed
    }

    function Read(s: SyncState): Version {
      Version(order.timestamp, OutcomeFor(s), if Clashes() then None else Some(Print(order)))
    }

    predicate Departs(s: SyncState) { order.state != Unknown && order.tables != {} && !Associated(s) }

    predicate Repairs(s: SyncState) {
      Departs(s) && IsLegacyTransferRepair(VersionOf(s, order.id), Some(Read(s)))
    }

    /** An unresolved version is held until a strictly newer one. */
    predicate Held(s: SyncState) {
      && !Clashes() && order.id in s.versions && s.versions[order.id].state == Unknown
      && s.versions[order.id].timestamp == order.timestamp && !Repairs(s)
    }

    function Prospect(s: SyncState): map<Uuid, Version> {
      s.versions[order.id := if Clashes() then Read(s).(state := Unknown) else Read(s)]
    }

    function Peers(id: Uuid): set<Version> { set s | s in states && id in s.versions :: s.versions[id] }

    /** A bill of the last complete read that may sit on this table and that its ledger does not explain. */
    predicate MayStillSit(s: SyncState, seen: Order) {
      && (s.scope.syrveTable in seen.tables || (seen.state == Unknown && seen.tables == {}))
      && seen.id !in s.active
      && !(seen.id in Prospect(s) && Prospect(s)[seen.id].timestamp > seen.timestamp
           && Prospect(s)[seen.id].state == Closed)
      && (if seen.state != Unknown then seen.state == Open else
            || (forall p :: p in Peers(seen.id) ==> p.timestamp <= seen.timestamp)
            || (exists p :: p in Peers(seen.id) && p.state == Unknown
                            && forall q :: q in Peers(seen.id) ==> q.timestamp <= p.timestamp))
    }

    predicate CanClose(s: SyncState) {
      && !(exists seen :: seen in topology.orders && MayStillSit(s, seen))
      && (forall id :: id in Prospect(s) ==> Prospect(s)[id].state != Unknown)
    }

    predicate Opens(s: SyncState) { !Clashes() && OutcomeFor(s) == Open && Associated(s) }

    predicate Closes(s: SyncState) { !Clashes() && OutcomeFor(s) == Closed && CanClose(s) }

    predicate Blocked(s: SyncState) { OutcomeFor(s) == Closed && !Closes(s) && order.id in s.active }

    function NextActive(s: SyncState): set<Uuid> {
      if Opens(s) then s.active + {order.id} else if Closes(s) then s.active - {order.id} else s.active
    }

    function NextVersions(s: SyncState): map<Uuid, Version> {
      if Blocked(s) && Repairs(s) then s.versions else Prospect(s)
    }

    function Next(s: SyncState): SyncState {
      s.(active := NextActive(s), freed := s.freed * NextActive(s), versions := NextVersions(s),
         last := if NextActive(s) != {} then Open else if s.active != {} && CanClose(s) then Closed else s.last)
    }

    function Diagnostics(s: SyncState): set<Diagnostic> {
      (if Clashes() then {ConflictingVersions} else {}) + (if Blocked(s) then {UnknownOrders} else {})
    }

    /** One table's share of the notification. */
    function Step(s: SyncState, revision: Uuid): Outcome<WebhookTransition> {
      if !Related(s) then Done(WebhookTransition(Transition(s, false, {}), None))
      else if Held(s) then Done(WebhookTransition(Transition(s, false, {UnknownOrders}), None))
      else if Next(s) == s then Done(Settle(s, Transition(s, false, Diagnostics(s))))
      else if revision == s.revision then Thrown
      else Done(Settle(s, Transition(Next(s).(revision := revision), true, Diagnostics(s))))
    }

    function Settle(s: SyncState, t: Transition): WebhookTransition {
      WebhookTransition(t, if Repairs(s) then None else StatusEvent(s, t))
    }

    function Results(revisions: seq<Uuid>): (results: seq<WebhookTransition>)
      requires |revisions| == |states| && forall i :: 0 <= i < |states| ==> Step(states[i], revisions[i]).Done?
      ensures |results| == |states|
      ensures forall i :: 0 <= i < |states| ==> Step(states[i], revisions[i]) == Done(results[i])
    {
      seq(|states|, i requires 0 <= i < |states| => Step(states[i], revisions[i]).value)
    }

    predicate Acceptable(revisions: seq<Uuid>) {
      && ValidOrder(order)
      && (forall s :: s in states ==> Valid(s))
      && |states| == |revisions| && states != []
      && (forall i, j :: 0 <= i < j < |states| ==> states[i].scope.syrveTable != states[j].scope.syrveTable)
      && (forall s :: s in states ==> s.scope.organization == topology.organization
                                      && s.scope.configurationRevision == topology.configurationRevision)
    }
  }

  function ReduceWebhook(states: seq<SyncState>, order: Order, topology: Topology,
                         revisions: seq<Uuid>): (out: Outcome<seq<WebhookTransition>>)
    ensures out.Done? ==> |out.value| == |states|
  {
    var h := Hook(states, order, topology);
    if !h.Acceptable(revisions) then Thrown
    else if h.Stale() then Done(StaleResults(states))
    else if !h.TopologyFits() then Thrown
    else if exists i :: 0 <= i < |states| && h.Step(states[i], revisions[i]).Thrown? then Thrown
    else Done(h.Results(revisions))
  }

  function StaleResults(states: seq<SyncState>): (results: seq<WebhookTransition>)
    ensures |results| == |states|
    ensures forall i :: 0 <= i < |states| ==>
              results[i] == WebhookTransition(Transition(states[i], false, {StaleOrder}), None)
  {
    seq(|states|, i requires 0 <= i < |states| => WebhookTransition(Transition(states[i], false, {StaleOrder}), None))
  }

  // ----- The reducer itself

  /** Some table, or the last complete read, knows a newer version of the bill. */
  ghost predicate OutdatedBy(states: seq<SyncState>, topology: Topology, order: Order) {
    || (exists s :: s in states && order.id in s.versions && s.versions[order.id].timestamp > order.timestamp)
    || (exists seen :: seen in topology.orders && seen.id == order.id && seen.timestamp > order.timestamp)
  }

  method ReduceSyrveWebhookOrder(states: seq<SyncState>, order: Order, topology: Topology, revisions: seq<Uuid>)
    returns (out: Outcome<seq<WebhookTransition>>)
    ensures out == ReduceWebhook(states, order, topology, revisions)
    ensures out.Done? && order.state == Unknown && order.tables == {} ==>
              forall i :: 0 <= i < |states| ==>
                var versions := out.value[i].transition.state.versions;
                || OutdatedBy(states, topology, order)
                || (order.id in versions && versions[order.id].timestamp == order.timestamp
                    && versions[order.id].state == Unknown)
  {
    var h := Hook(states, order, topology);
    if !h.Acceptable(revisions) { return Thrown; }
    var results: seq<WebhookTransition> := [];
    if h.Stale() {
      for i := 0 to |states|
        invariant |results| == i
        invariant forall k :: 0 <= k < i ==>
                    results[k] == WebhookTransition(Transition(states[k], false, {StaleOrder}), None)
      {
        results := results + [WebhookTransition(Transition(states[i], false, {StaleOrder}), None)];
      }
      assert results == StaleResults(states);
      return Done(results);
    }
    if !h.TopologyFits() { return Thrown; }
    for i := 0 to |states|
      invariant |results| == i
      invariant forall k :: 0 <= k < i ==> h.Step(states[k], revisions[k]) == Done(results[k])
    {
      assert states[i] in states;
      var step := ReduceOneTable(h, states[i], revisions[i]);
      if step.Thrown? { return Thrown; }
      results := results + [step.value];
    }
    assert results == h.Results(revisions);
    out := Done(results);
  }

  method ReduceOneTable(h: Hook, s: SyncState, revision: Uuid) returns (step: Outcome<WebhookTransition>)
    requires Valid(s)
    ensures step == h.Step(s, revision)
    ensures step.Done? && h.order.state == Unknown && h.order.tables == {} ==>
              var versions := step.value.transition.state.versions;
              h.order.id in versions && versions[h.order.id].timestamp == h.order.timestamp
              && versions[h.order.id].state == Unknown
  {
    if !h.Related(s) { return Done(WebhookTransition(Transition(s, false, {}), None)); }
    var id, conflict := h.order.id, h.Clashes();
    var version := h.Read(s);
    var legacyRepair := h.Departs(s) && IsLegacyTransferRepair(VersionOf(s, id), Some(version));
    if !conflict && id in s.versions && s.versions[id].state == Unknown
      && s.versions[id].timestamp == h.order.timestamp && !legacyRepair
    {
      return Done(WebhookTransition(Transition(s, false, {UnknownOrders}), None));
    }
    var next, diagnostics := ApplyVersion(h, s, conflict, legacyRepair);
    if next != s && revision == s.revision { return Thrown; }
    var transition := Transition(if next != s then next.(revision := revision) else s, next != s, diagnostics);
    step := Done(WebhookTransition(transition, if legacyRepair then None else StatusEvent(s, transition)));
  }

  /** The accepted version and what it does to membership. */
  method ApplyVersion(h: Hook, s: SyncState, conflict: bool, legacyRepair: bool) returns (next: SyncState,
                      diagnostics: set<Diagnostic>)
    requires Valid(s) && conflict == h.Clashes() && legacyRepair == h.Repairs(s)
    ensures next == h.Next(s) && diagnostics == h.Diagnostics(s)
  {
    var id, outcome, active := h.order.id, h.OutcomeFor(s), s.active;
    var versions := s.versions[id := if conflict then h.Read(s).(state := Unknown) else h.Read(s)];
    diagnostics := if conflict then {ConflictingVersions} else {};
    var unaccounted := exists seen :: seen in h.topology.orders && h.MayStillSit(s, seen);
    var canClose := !unaccounted && forall k :: k in versions ==> versions[k].state != Unknown;
    if !conflict && outcome == Open && h.Associated(s) {
      active := active + {id};
    } else if !conflict && outcome == Closed && canClose {
      active := active - {id};
    } else if outcome == Closed && id in active {
      diagnostics := diagnostics + {UnknownOrders};
      if legacyRepair { versions := versions[id := s.versions[id]]; }
    }
    assert versions == h.NextVersions(s);
    next := s.(active := active, freed := s.freed * active, versions := versions,
               last := if active != {} then Open else if s.active != {} && canClose then Closed else s.last);
  }

  // ----- What a notification keeps

  lemma WebhookKeepsValid(h: Hook, s: SyncState, revision: Uuid)
    requires ValidOrder(h.order) && Valid(s) && h.Step(s, revision).Done?
    ensures Valid(h.Step(s, revision).value.transition.state)
  {
  }

  lemma WebhookAdvances(h: Hook, s: SyncState, revision: Uuid)
    requires Valid(s) && s in h.states && !h.Stale() && h.Step(s, revision).Done?
    ensures Advances(s.versions, h.Step(s, revision).value.transition.state.versions)
  {
  }

  lemma WebhookOpensOnlyNewest(h: Hook, s: SyncState, revision: Uuid, id: Uuid)
    requires s in h.states && !h.Stale() && h.Step(s, revision).Done?
    requires id !in s.active && id in h.Step(s, revision).value.transition.state.active
    ensures var after := h.Step(s, revision).value.transition.state;
            && id == h.order.id && id in after.versions && OpensWith(after.versions[id], s.scope.syrveTable)
            && forall peer :: peer in h.states && id in peer.versions ==>
               Dominates(after.versions[id], peer.versions[id])
  {
  }

  // ----- Transfers

  /** The accepted version of an open bill: newest, known nowhere differently. */
  ghost predicate UsableOpening(h: Hook) {
    h.order.state == Open && !h.Stale() && !h.Clashes()
  }

  /** Transfer conservation: a usable new version of an open bill makes it active on exactly the listed
      linked tables, except where a table reports `unknown_orders`; no other bill's membership moves. */
  lemma TransferConservation(states: seq<SyncState>, order: Order, topology: Topology, revisions: seq<Uuid>, i: nat)
    requires ReduceWebhook(states, order, topology, revisions).Done? && i < |states|
    requires UsableOpening(Hook(states, order, topology))
    ensures var result := ReduceWebhook(states, order, topology, revisions).value[i].transition;
            && (UnknownOrders in result.diagnostics ||
                (order.id in result.state.active <==> states[i].scope.syrveTable in order.tables))
            && result.state.active - {order.id} == states[i].active - {order.id}
  {
    var h, s := Hook(states, order, topology), states[i];
    assert s in states && Valid(s);
    assert ReduceWebhook(states, order, topology, revisions).value[i] == h.Step(s, revisions[i]).value;
  }

  /** A notification moves no bill but its own, on any table. */
  lemma WebhookMovesOnlyItsBill(states: seq<SyncState>, order: Order, topology: Topology, revisions: seq<Uuid>, i: nat,
                                id: Uuid)
    requires ReduceWebhook(states, order, topology, revisions).Done? && i < |states| && id != order.id
    ensures var after := ReduceWebhook(states, order, topology, revisions).value[i].transition.state;
            && (id in after.active <==> id in states[i].active)
            && (id in states[i].freed <==> id in after.freed)
            && VersionOf(after, id) == VersionOf(states[i], id)
  {
    assert states[i] in states && Valid(states[i]);
  }

  /** What `unknown_orders` means for an opening: this very version is on hold here, or the bill is
      saved here and cannot leave yet because something about the table is unresolved. */
  lemma HeldTransfersAreExplained(states: seq<SyncState>, order: Order, topology: Topology, revisions: seq<Uuid>,
                                  i: nat)
    requires ReduceWebhook(states, order, topology, revisions).Done? && i < |states|
    requires UsableOpening(Hook(states, order, topology))
    ensures var h := Hook(states, order, topology);
            UnknownOrders in ReduceWebhook(states, order, topology, revisions).value[i].transition.diagnostics <==>
            || (h.Related(states[i]) && h.Held(states[i]))
            || (h.Related(states[i]) && !h.Associated(states[i]) && order.id in states[i].active
                && !h.CanClose(states[i]))
  {
  }
}
