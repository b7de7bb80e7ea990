/** What a notification must do, said of the states, the bill and the last complete read alone. */
module SyrveNoticeLaws {
  import opened Basics
  import opened SyrveOrders
  import opened SyrveObserver
  import opened SyrveState
  import opened SyrveEvidence
  import opened SyrvePollTheorems
  import opened SyrvePollLaws
  import opened SyrveWebhook

  // ----- What is known of the bill

  /** One of them knows this very version differently. */
  ghost predicate ContestedNotice(states: seq<SyncState>, o: Order, topology: Topology) {
    || (exists s :: s in states && o.id in s.versions && s.versions[o.id].timestamp == o.timestamp
                    && s.versions[o.id].fingerprint != Some(Print(o)))
    || (exists seen :: seen in topology.orders && seen.id == o.id && seen.timestamp == o.timestamp
                       && Print(seen) != Print(o))
  }

  /** Still being created, nowhere in particular. */
  predicate Unplaced(o: Order) { o.state == Unknown && o.tables == {} }

  /** The bill has a verdict and is explicitly on other tables. */
  predicate MovedAway(s: SyncState, o: Order) { o.state != Unknown && o.tables != {} && !Here(s, o) }

  /** The bill is not, or no longer, open here. */
  predicate GoneFrom(s: SyncState, o: Order) { (Here(s, o) && o.state == Closed)
                                              || (!Here(s, o) && o.state != Unknown) }

  // ----- Whether the table may close

  /** A bill of the last complete read does not stop the table from closing: it cannot sit here, is saved, was closed
      here since, was closed already, or was unresolved and is resolved, everywhere it is known newest, by something
      newer. `o` is the notification, which closes its bill here. */
  ghost predicate AccountedFor(states: seq<SyncState>, s: SyncState, o: Order, seen: Order) {
    || (!Here(s, seen) && !Unplaced(seen))
    || seen.id in s.active
    || (seen.id == o.id && seen.timestamp < o.timestamp)
    || (seen.id != o.id && seen.id in s.versions && s.versions[seen.id].timestamp > seen.timestamp
        && s.versions[seen.id].state == Closed)
    || seen.state == Closed
    || (seen.state == Unknown && ResolvedSince(states, seen))
  }

  ghost predicate ResolvedSince(states: seq<SyncState>, seen: Order) {
    && (exists s :: s in states && seen.id in s.versions && s.versions[seen.id].timestamp > seen.timestamp)
    && forall s :: s in states && seen.id in s.versions && s.versions[seen.id].state == Unknown ==>
         exists r :: r in states && seen.id in r.versions
                     && r.versions[seen.id].timestamp > s.versions[seen.id].timestamp
  }

  /** No other bill of the ledger is on hold, and every bill of the last read is accounted for. */
  ghost predicate MayClose(states: seq<SyncState>, s: SyncState, o: Order, topology: Topology) {
    && (forall id :: id in s.versions && id != o.id ==> s.versions[id].state != Unknown)
    && (forall seen :: seen in topology.orders ==> AccountedFor(states, s, o, seen))
  }

  lemma OutdatedAndContested(h: Hook)
    ensures h.Stale() <==> OutdatedBy(h.states, h.topology, h.order)
    ensures h.Clashes() <==> ContestedNotice(h.states, h.order, h.topology)
  {
  }

  lemma PeersResolve(h: Hook, seen: Order)
    ensures ResolvedSince(h.states, seen) <==>
            && (exists p :: p in h.Peers(seen.id) && p.timestamp > seen.timestamp)
            && forall p :: p in h.Peers(seen.id) && p.state == Unknown ==>
                 exists q :: q in h.Peers(seen.id) && q.timestamp > p.timestamp
  {
    forall s | s in h.states && seen.id in s.versions ensures s.versions[seen.id] in h.Peers(seen.id) {
    }
  }

  lemma AccountsAlike(h: Hook, s: SyncState, seen: Order)
    requires !h.Clashes() && GoneFrom(s, h.order)
    ensures h.MayStillSit(s, seen) <==> !AccountedFor(h.states, s, h.order, seen)
  {
    PeersResolve(h, seen);
    assert h.Prospect(s) == s.versions[h.order.id := Version(h.order.timestamp, Closed, Some(Print(h.order)))];
  }

  lemma MayCloseExactly(h: Hook, s: SyncState)
    requires !h.Clashes() && GoneFrom(s, h.order)
    ensures h.CanClose(s) <==> MayClose(h.states, s, h.order, h.topology)
  {
    forall seen | seen in h.topology.orders
      ensures h.MayStillSit(s, seen) <==> !AccountedFor(h.states, s, h.order, seen)
    {
      AccountsAlike(h, s, seen);
    }
    assert h.Prospect(s) == s.versions[h.order.id := Version(h.order.timestamp, Closed, Some(Print(h.order)))];
    forall id | id in s.versions && id != h.order.id ensures h.Prospect(s)[id] == s.versions[id] {
    }
  }

  // ----- What becomes of each table

  /** The result of an accepted notification for one table. */
  ghost predicate Noticed(states: seq<SyncState>, o: Order, topology: Topology, revisions: seq<Uuid>, i: nat) {
    ReduceWebhook(states, o, topology, revisions).Done? && i < |states|
  }

  ghost function NoticeResult(states: seq<SyncState>, o: Order, topology: Topology, revisions: seq<Uuid>,
                              i: nat): WebhookTransition
    requires Noticed(states, o, topology, revisions, i)
  {
    ReduceWebhook(states, o, topology, revisions).value[i]
  }

  ghost function AfterNotice(states: seq<SyncState>, o: Order, topology: Topology, revisions: seq<Uuid>,
                             i: nat): SyncState
    requires Noticed(states, o, topology, revisions, i)
  {
    NoticeResult(states, o, topology, revisions, i).transition.state
  }

  /** An outdated notification changes nothing, says so, and emits nothing. */
  lemma OutdatedIsIgnored(states: seq<SyncState>, o: Order, topology: Topology, revisions: seq<Uuid>, i: nat)
    requires Noticed(states, o, topology, revisions, i) && OutdatedBy(states, topology, o)
    ensures NoticeResult(states, o, topology, revisions, i)
            == WebhookTransition(Transition(states[i], false, {StaleOrder}), None)
  {
    OutdatedAndContested(Hook(states, o, topology));
  }

  lemma StepOfNotice(states: seq<SyncState>, o: Order, topology: Topology, revisions: seq<Uuid>, i: nat)
    requires Noticed(states, o, topology, revisions, i) && !OutdatedBy(states, topology, o)
    ensures var h := Hook(states, o, topology);
            && !h.Stale() && Valid(states[i]) && h.Step(states[i], revisions[i]).Done?
            && NoticeResult(states, o, topology, revisions, i) == h.Step(states[i], revisions[i]).value
  {
    OutdatedAndContested(Hook(states, o, topology));
    assert states[i] in states;
  }

  /** The row the bill gets. A table it does not touch keeps what it had; a contested version is put on hold with no
      print; one already on hold stays so, unless the bill has moved away and is either not saved here or may leave. */
  ghost function RowAfterNotice(states: seq<SyncState>, s: SyncState, o: Order, topology: Topology): Option<Version> {
    if !(Here(s, o) || o.id in s.versions || Unplaced(o)) then VersionOf(s, o.id)
    else if ContestedNotice(states, o, topology) then Some(Version(o.timestamp, Unknown, None))
    else if OnHold(s, o) && !(MovedAway(s, o) && (o.id in s.active ==> MayClose(states, s, o, topology)))
    then VersionOf(s, o.id)
    else
      Some(Version(o.timestamp, if GoneFrom(s, o) then Closed else o.state, Some(Print(o))))
  }

  lemma HookRow(h: Hook, s: SyncState, revision: Uuid)
    requires s in h.states && !h.Stale() && h.Step(s, revision).Done?
    ensures VersionOf(h.Step(s, revision).value.transition.state, h.order.id)
            == RowAfterNotice(h.states, s, h.order, h.topology)
  {
    OutdatedAndContested(h);
    if !h.Clashes() && GoneFrom(s, h.order) { MayCloseExactly(h, s); }
  }

  lemma LedgerAfterNotice(states: seq<SyncState>, o: Order, topology: Topology, revisions: seq<Uuid>, i: nat)
    requires Noticed(states, o, topology, revisions, i) && !OutdatedBy(states, topology, o)
    ensures VersionOf(AfterNotice(states, o, topology, revisions, i), o.id)
            == RowAfterNotice(states, states[i], o, topology)
  {
    StepOfNotice(states, o, topology, revisions, i);
    HookRow(Hook(states, o, topology), states[i], revisions[i]);
  }

  /** A bill still being created puts itself on hold on every linked table. */
  lemma UnplacedIsHeldEverywhere(states: seq<SyncState>, o: Order, topology: Topology, revisions: seq<Uuid>, i: nat)
    requires Noticed(states, o, topology, revisions, i) && !OutdatedBy(states, topology, o)
    requires o.state == Unknown && o.tables == {}
    ensures var versions := AfterNotice(states, o, topology, revisions, i).versions;
            o.id in versions && versions[o.id].timestamp == o.timestamp && versions[o.id].state == Unknown
  {
    LedgerAfterNotice(states, o, topology, revisions, i);
  }

  /** Membership, exactly: the bill joins where it is open, and leaves where it is gone and the table may close,
      unless this version is contested or on hold; a bill on hold may still leave by moving away. */
  ghost predicate ActiveAfterNotice(states: seq<SyncState>, s: SyncState, o: Order, topology: Topology) {
    if ContestedNotice(states, o, topology) then o.id in s.active
    else if Here(s, o) && o.state == Open then o.id in s.active || !OnHold(s, o)
    else if GoneFrom(s, o) && (OnHold(s, o) ==> MovedAway(s, o)) then
      o.id in s.active && !MayClose(states, s, o, topology)
    else o.id in s.active
  }

  lemma HookMembership(h: Hook, s: SyncState, revision: Uuid)
    requires s in h.states && Valid(s) && !h.Stale() && h.Step(s, revision).Done?
    ensures h.order.id in h.Step(s, revision).value.transition.state.active
            <==> ActiveAfterNotice(h.states, s, h.order, h.topology)
  {
    OutdatedAndContested(h);
    if !h.Clashes() && GoneFrom(s, h.order) { MayCloseExactly(h, s); }
  }

  lemma MembershipAfterNotice(states: seq<SyncState>, o: Order, topology: Topology, revisions: seq<Uuid>, i: nat)
    requires Noticed(states, o, topology, revisions, i) && !OutdatedBy(states, topology, o)
    ensures o.id in AfterNotice(states, o, topology, revisions, i).active <==>
            ActiveAfterNotice(states, states[i], o, topology)
  {
    assert states[i] in states;
    StepOfNotice(states, o, topology, revisions, i);
    HookMembership(Hook(states, o, topology), states[i], revisions[i]);
  }

  // ----- What else a notification leaves and reports

  /** The notification says something of the bill to this table. */
  predicate Touched(s: SyncState, o: Order) { Here(s, o) || o.id in s.versions || Unplaced(o) }

  lemma HookRest(h: Hook, s: SyncState, revision: Uuid)
    requires s in h.states && Valid(s) && !h.Stale() && h.Step(s, revision).Done?
    ensures var t := h.Step(s, revision).value.transition;
            && t.state.scope == s.scope && t.state.freed == s.freed * t.state.active
            && t.state.last == (if t.state.active != {} then Open else if s.active != {} then Closed else s.last)
            && t.state.revision == (if t.changed then revision else s.revision)
            && (!t.changed ==> t.state == s) && (t.changed ==> revision != s.revision)
            && (t.changed <==> t.state.(revision := s.revision) != s)
  {
  }

  /** Suppressions stay with the bills that stay; a changed table, and only that, gets its proposed revision. */
  lemma RestAfterNotice(states: seq<SyncState>, o: Order, topology: Topology, revisions: seq<Uuid>, i: nat)
    requires Noticed(states, o, topology, revisions, i) && !OutdatedBy(states, topology, o)
    ensures var s, t := states[i], NoticeResult(states, o, topology, revisions, i).transition;
            && t.state.scope == s.scope && t.state.freed == s.freed * t.state.active
            && t.state.last == (if t.state.active != {} then Open else if s.active != {} then Closed else s.last)
            && t.state.revision == (if t.changed then revisions[i] else s.revision)
            && (!t.changed ==> t.state == s) && (t.changed ==> revisions[i] != s.revision)
            && (t.changed <==> t.state.(revision := s.revision) != s)
  {
    assert states[i] in states;
    StepOfNotice(states, o, topology, revisions, i);
    HookRest(Hook(states, o, topology), states[i], revisions[i]);
  }

  lemma HookReports(h: Hook, s: SyncState, revision: Uuid)
    requires s in h.states && Valid(s) && !h.Stale() && h.Step(s, revision).Done?
    ensures var t := h.Step(s, revision).value.transition;
            && (ConflictingVersions in t.diagnostics <==> Touched(s, h.order) && h.Clashes())
            && (UnknownOrders in t.diagnostics <==>
                || (Touched(s, h.order) && !h.Clashes() && OnHold(s, h.order) && !MovedAway(s, h.order))
                || (GoneFrom(s, h.order) && h.order.id in s.active && h.order.id in t.state.active))
            && t.diagnostics <= {ConflictingVersions, UnknownOrders}
  {
  }

  /** A conflict is reported where the version is contested; unknown bills where it stays on hold, or where the bill
      is gone and stays saved all the same. */
  lemma NoticeReports(states: seq<SyncState>, o: Order, topology: Topology, revisions: seq<Uuid>, i: nat)
    requires Noticed(states, o, topology, revisions, i) && !OutdatedBy(states, topology, o)
    ensures var s, t := states[i], NoticeResult(states, o, topology, revisions, i).transition;
            && (ConflictingVersions in t.diagnostics <==> Touched(s, o) && ContestedNotice(states, o, topology))
            && (UnknownOrders in t.diagnostics <==>
                || (Touched(s, o) && !ContestedNotice(states, o, topology) && OnHold(s, o) && !MovedAway(s, o))
                || (GoneFrom(s, o) && o.id in s.active && o.id in t.state.active))
            && t.diagnostics <= {ConflictingVersions, UnknownOrders}
  {
    assert states[i] in states;
    StepOfNotice(states, o, topology, revisions, i);
    OutdatedAndContested(Hook(states, o, topology));
    HookReports(Hook(states, o, topology), states[i], revisions[i]);
  }

  // ----- Which notifications are refused altogether

  /** The catalogue's first entry for the table is not deleted, in a live group, and in the given one, if any. */
  ghost predicate LiveIn(topology: Topology, t: Uuid, group: Option<Uuid>) {
    exists k :: 0 <= k < |topology.tables| && topology.tables[k].id == t
      && (forall j :: 0 <= j < k ==> topology.tables[j].id != t)
      && !topology.tables[k].isDeleted && topology.tables[k].group in topology.liveGroups
      && (group.Some? ==> topology.tables[k].group == group.value)
  }

  lemma LiveMeansFirst(h: Hook, t: Uuid, group: Option<Uuid>)
    requires h.LiveTable(t, group)
    ensures LiveIn(h.topology, t, group)
  {
    var k := FoundFirst(h.topology.tables, t);
  }

  lemma FirstMeansLive(h: Hook, t: Uuid, group: Option<Uuid>)
    requires LiveIn(h.topology, t, group)
    ensures h.LiveTable(t, group)
  {
    var k :| 0 <= k < |h.topology.tables| && h.topology.tables[k].id == t
             && (forall j :: 0 <= j < k ==> h.topology.tables[j].id != t)
             && !h.topology.tables[k].isDeleted && h.topology.tables[k].group in h.topology.liveGroups
             && (group.Some? ==> h.topology.tables[k].group == group.value);
    FirstFound(h.topology.tables, t, k);
  }

  lemma LiveTables(h: Hook, t: Uuid, group: Option<Uuid>)
    ensures h.LiveTable(t, group) <==> LiveIn(h.topology, t, group)
  {
    if h.LiveTable(t, group) { LiveMeansFirst(h, t, group); }
    if LiveIn(h.topology, t, group) { FirstMeansLive(h, t, group); }
  }

  /** Every table the bill is on is live in its group, and every linked table it is on or saved at is visible and live.
      */
  ghost predicate Placeable(states: seq<SyncState>, o: Order, topology: Topology) {
    && (forall t :: t in o.tables ==> LiveIn(topology, t, o.group))
    && (forall s :: s in states && (Here(s, o) || o.id in s.active) ==>
          s.scope.syrveTable in topology.visibleTables && LiveIn(topology, s.scope.syrveTable, None))
  }

  lemma PlaceableExactly(h: Hook)
    ensures h.TopologyFits() <==> Placeable(h.states, h.order, h.topology)
  {
    forall t, group ensures h.LiveTable(t, group) <==> LiveIn(h.topology, t, group) {
      LiveTables(h, t, group);
    }
  }

  /** The states are valid, of different tables, and of the organization and configuration the read was made under,
      and there is a revision for each. */
  ghost predicate Addressed(states: seq<SyncState>, o: Order, topology: Topology, revisions: seq<Uuid>) {
    && ValidOrder(o) && states != [] && |states| == |revisions|
    && (forall i :: 0 <= i < |states| ==>
          && Valid(states[i])
          && states[i].scope.organization == topology.organization
          && states[i].scope.configurationRevision == topology.configurationRevision)
    && (forall i, j :: 0 <= i < j < |states| ==> states[i].scope.syrveTable != states[j].scope.syrveTable)
  }

  /** A notification is taken whenever it is addressed rightly and, unless it is outdated, placeable, provided that
      the proposed revisions are new. */
  lemma NoticeIsTaken(states: seq<SyncState>, o: Order, topology: Topology, revisions: seq<Uuid>)
    requires Addressed(states, o, topology, revisions)
    requires OutdatedBy(states, topology, o) || Placeable(states, o, topology)
    requires forall i :: 0 <= i < |states| ==> revisions[i] != states[i].revision
    ensures ReduceWebhook(states, o, topology, revisions).Done?
  {
    OutdatedAndContested(Hook(states, o, topology));
    PlaceableExactly(Hook(states, o, topology));
  }

  /** Conversely what is taken was addressed rightly and, unless outdated, placeable. */
  lemma TakenNoticeFits(states: seq<SyncState>, o: Order, topology: Topology, revisions: seq<Uuid>)
    requires ReduceWebhook(states, o, topology, revisions).Done?
    ensures Addressed(states, o, topology, revisions)
    ensures OutdatedBy(states, topology, o) || Placeable(states, o, topology)
  {
    OutdatedAndContested(Hook(states, o, topology));
    PlaceableExactly(Hook(states, o, topology));
    assert forall i :: 0 <= i < |states| ==> states[i] in states;
  }
}
