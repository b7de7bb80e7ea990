/** What a poll must do, said of the state, the bills read and the versions known alone. */
module SyrvePollLaws {
  import opened Basics
  import opened SyrveOrders
  import opened SyrveObserver
  import opened SyrveState
  import opened SyrveEvidence
  import opened SyrvePoll
  import opened SyrvePollTheorems

  // ----- What was read of a bill

  /** The read bill sits on this table. */
  predicate Here(s: SyncState, o: Order) { s.scope.syrveTable in o.tables }

  /** The catalogue's first entry for the table is not deleted and in the bill's own cash group, and that group is
      active and alive. */
  ghost predicate LiveFor(p: Probe, t: Uuid, group: Option<Uuid>) {
    && p.catalogTables.Some? && p.terminalGroups.Some? && p.availability.Some?
    && exists k :: 0 <= k < |p.catalogTables.value| && p.catalogTables.value[k].id == t
         && (forall j :: 0 <= j < k ==> p.catalogTables.value[j].id != t)
         && !p.catalogTables.value[k].isDeleted
         && var g := p.catalogTables.value[k].group;
            group == Some(g) && g in p.terminalGroups.value.active
            && g in p.availability.value && p.availability.value[g]
  }

  lemma {:induction false} FirstFound(tables: seq<CatalogTable>, t: Uuid, k: nat)
    requires k < |tables| && tables[k].id == t && forall j :: 0 <= j < k ==> tables[j].id != t
    ensures FindFirst(tables, t) == Some(tables[k])
  {
    if k > 0 { FirstFound(tables[1..], t, k - 1); }
  }

  lemma {:induction false} FoundFirst(tables: seq<CatalogTable>, t: Uuid) returns (k: nat)
    requires FindFirst(tables, t).Some?
    ensures k < |tables| && tables[k] == FindFirst(tables, t).value && tables[k].id == t
    ensures forall j :: 0 <= j < k ==> tables[j].id != t
  {
    if tables[0].id == t { k := 0; } else {
      var rest := FoundFirst(tables[1..], t);
      k := rest + 1;
    }
  }

  lemma LiveDestinations(p: Probe, t: Uuid, group: Option<Uuid>)
    ensures DestinationLive(p, t, group) <==> LiveFor(p, t, group)
  {
    if DestinationLive(p, t, group) {
      var k := FoundFirst(GetOr(p.catalogTables, []), t);
    }
    if LiveFor(p, t, group) {
      var k :| 0 <= k < |p.catalogTables.value| && p.catalogTables.value[k].id == t
               && forall j :: 0 <= j < k ==> p.catalogTables.value[j].id != t;
      FirstFound(p.catalogTables.value, t, k);
    }
  }

  /** The bill was read, with a verdict, on other tables only, all of them live in every read. */
  ghost predicate Elsewhere(s: SyncState, o: Order, probes: seq<Probe>) {
    && o.state != Unknown && o.tables != {} && !Here(s, o)
    && forall p, t :: p in probes && t in o.tables ==> LiveFor(p, t, o.group)
  }

  lemma DepartedMeansElsewhere(s: SyncState, orders: map<Uuid, Order>, probes: seq<Probe>, id: Uuid)
    ensures id in DepartedIds(orders, s.scope.syrveTable, probes) <==> id in orders && Elsewhere(s, orders[id], probes)
  {
    if id in orders {
      forall p, t | p in probes && t in orders[id].tables
        ensures DestinationLive(p, t, orders[id].group) <==> LiveFor(p, t, orders[id].group)
      {
        LiveDestinations(p, t, orders[id].group);
      }
    }
  }

  /** Read closed here, or gone elsewhere. */
  ghost predicate ReadGone(s: SyncState, o: Order, probes: seq<Probe>) {
    (Here(s, o) && o.state == Closed) || Elsewhere(s, o, probes)
  }

  /** Every version known of the bill, here and on the tables that share the ledger. */
  ghost function KnownOf(s: SyncState, known: set<VersionRow>, id: Uuid): set<Version> {
    (set r | r in known && r.id == id :: r.version) + if id in s.versions then {s.versions[id]} else {}
  }

  /** The read is newer than every known version, or the very same record. */
  ghost predicate Newest(s: SyncState, known: set<VersionRow>, o: Order) {
    forall v :: v in KnownOf(s, known, o.id) ==>
      v.timestamp < o.timestamp || (v.timestamp == o.timestamp && v.fingerprint == Some(Print(o)))
  }

  // ----- A poll that gets as far as weighing what it read

  ghost predicate Weighed(s: SyncState, e: PollEvent) {
    && Valid(s) && Current(s, e.fence) && e.fence.nextRevision != s.revision && EvidenceFrom(s, e.input).Evidence?
    && (forall p :: p in Probes(e.input) ==> p.organization == s.scope.organization)
    && (forall r :: r in e.known ==> SafeTimestamp(r.version.timestamp))
  }

  /** Any other poll of a valid state throws or leaves the state as it was, for a stated reason. */
  lemma OtherPolls(s: SyncState, e: PollEvent)
    requires Valid(s) && !Weighed(s, e)
    ensures ReducePoll(s, e)
            == if !Current(s, e.fence) then Done(Transition(s, false, {Refusal(s, e.fence)}))
               else if e.fence.nextRevision == s.revision then Thrown
               else if exists p :: p in Probes(e.input) && p.organization != s.scope.organization
               then Done(Transition(s, false, {ScopeChanged}))
               else if EvidenceFrom(s, e.input).NoEvidence? then Done(Transition(s, false, {ObservationUnknown}))
               else Thrown
  {
  }

  ghost function ReadBills(s: SyncState, e: PollEvent): map<Uuid, Order>
    requires Weighed(s, e)
  {
    EvidenceFrom(s, e.input).orders
  }

  ghost function After(s: SyncState, e: PollEvent): SyncState
    requires Weighed(s, e)
  {
    ReducePoll(s, e).value.state
  }

  lemma WeighedOutcome(s: SyncState, e: PollEvent)
    requires Weighed(s, e)
    ensures var v := ViewOf(s, e, ReadBills(s, e));
            ReducePoll(s, e)
            == Done(Transition(if v.Next() == s then s else v.Next().(revision := e.fence.nextRevision), v.Next() != s,
                               v.Diagnostics()))
  {
    FenceExactly(s, e.fence);
  }

  lemma ViewOfPoll(s: SyncState, e: PollEvent) returns (v: View)
    requires Weighed(s, e)
    ensures v == ViewOf(s, e, ReadBills(s, e)) && v.Sound()
    ensures After(s, e).active == v.NextActive() && After(s, e).versions == v.NextVersions()
    ensures DepartsElsewhere(v, Probes(e.input))
  {
    v := ViewOf(s, e, ReadBills(s, e));
    WeighedOutcome(s, e);
    ViewIsSound(s, e);
    ViewDeparts(v, Probes(e.input));
  }

  lemma ViewDeparts(v: View, probes: seq<Probe>)
    requires v.departed == DepartedIds(v.orders, v.s.scope.syrveTable, probes)
    ensures DepartsElsewhere(v, probes)
  {
    forall id ensures id in v.departed <==> id in v.orders && Elsewhere(v.s, v.orders[id], probes) {
      DepartedMeansElsewhere(v.s, v.orders, probes, id);
    }
  }

  /** Each saved bill was read with a verdict for this table, and nothing unresolved was read that may sit here. */
  ghost predicate AllRead(s: SyncState, orders: map<Uuid, Order>, probes: seq<Probe>) {
    && (forall id :: id in s.active ==>
          id in orders && ((Here(s, orders[id]) && orders[id].state == Open) || ReadGone(s, orders[id], probes)))
    && (forall id :: id in orders && orders[id].state == Unknown ==> orders[id].tables != {} && !Here(s, orders[id]))
  }

  ghost predicate NothingOnHold(versions: map<Uuid, Version>) {
    forall id :: id in versions ==> versions[id].state != Unknown
  }

  ghost predicate DepartsElsewhere(v: View, probes: seq<Probe>) {
    forall id :: id in v.departed <==> id in v.orders && Elsewhere(v.s, v.orders[id], probes)
  }

  lemma AllReadExactly(v: View, probes: seq<Probe>)
    requires DepartsElsewhere(v, probes)
    ensures AllRead(v.s, v.orders, probes) <==> !v.UnknownSeen()
  {
    forall id | id in v.orders
      ensures id in v.Opened() <==> Here(v.s, v.orders[id]) && v.orders[id].state == Open
      ensures id in v.Gone() <==> ReadGone(v.s, v.orders[id], probes)
    {
    }
  }

  lemma HoldExactly(v: View)
    requires v.visible && !v.UnknownSeen()
    ensures v.CanClose() <==> NothingOnHold(v.NextVersions())
  {
    if NothingOnHold(v.NextVersions()) {
      forall id | id in v.Prospect() ensures v.Prospect()[id].state != Unknown {
        assert id in v.NextVersions();
        if id in v.RepairIds() { assert v.s.versions[id].state == Unknown; }
      }
    }
  }

  /** The table is settled: all of it read, and nothing in the next ledger on hold. */
  ghost predicate Settled(s: SyncState, e: PollEvent)
    requires Weighed(s, e)
  {
    AllRead(s, ReadBills(s, e), Probes(e.input)) && NothingOnHold(After(s, e).versions)
  }

  lemma ClosableExactly(s: SyncState, e: PollEvent, v: View)
    requires Weighed(s, e) && v == ViewOf(s, e, ReadBills(s, e)) && DepartsElsewhere(v, Probes(e.input))
    requires After(s, e).versions == v.NextVersions()
    ensures v.CanClose() <==> e.visible && Settled(s, e)
  {
    AllReadExactly(v, Probes(e.input));
    if v.visible && !v.UnknownSeen() { HoldExactly(v); }
  }

  lemma HeldBlocks(v: View, id: Uuid)
    requires id in v.orders && v.Assess(id) == Ignored(false)
    ensures !v.CanClose()
  {
    assert v.Prospect()[id] == v.s.versions[id];
  }

  lemma LeavesExactly(v: View, probes: seq<Probe>, id: Uuid)
    requires v.Sound() && DepartsElsewhere(v, probes) && id in v.s.active && v.CanClose()
    ensures id !in v.NextActive() <==>
            id in v.orders && ReadGone(v.s, v.orders[id], probes) && Newest(v.s, v.known, v.orders[id])
  {
    RemovedExactly(v, id);
    if id in v.orders {
      JudgedAlike(v, id);
      if v.Assess(id) == Ignored(false) { HeldBlocks(v, id); }
    }
  }

  /** Exactly when a saved bill leaves: visibility was verified, the table is settled, and the bill's own gone
      record is newer than every version known of it or the same record. */
  lemma BillLeavesExactly(s: SyncState, e: PollEvent, id: Uuid)
    requires Weighed(s, e) && id in s.active
    ensures id !in After(s, e).active <==>
            && e.visible && Settled(s, e)
            && id in ReadBills(s, e) && ReadGone(s, ReadBills(s, e)[id], Probes(e.input))
            && Newest(s, e.known, ReadBills(s, e)[id])
  {
    var v := ViewOfPoll(s, e);
    ClosableExactly(s, e, v);
    if v.CanClose() { LeavesExactly(v, Probes(e.input), id); } else { RemovedExactly(v, id); }
  }

  /** A read is neither outdated nor contradicted exactly when it is the newest. */
  lemma JudgedAlike(v: View, id: Uuid)
    requires v.Sound() && id in v.orders
    ensures !v.Stale(id) && !v.Clashes(id) <==> Newest(v.s, v.known, v.orders[id])
  {
    assert v.orders[id].id == id;
    forall k ensures k in KnownOf(v.s, v.known, id) <==>
      k in v.Known(id) || (id in v.s.versions && k == v.s.versions[id])
    {
    }
  }

  /** This very version is on hold in the table's own ledger. */
  predicate OnHold(s: SyncState, o: Order) {
    o.id in s.versions && s.versions[o.id].state == Unknown && s.versions[o.id].timestamp == o.timestamp
  }

  lemma JoinsExactly(v: View, id: Uuid)
    requires v.Sound() && id !in v.s.active
    ensures id in v.NextActive() <==>
            && id in v.orders && Here(v.s, v.orders[id]) && v.orders[id].state == Open
            && Newest(v.s, v.known, v.orders[id]) && !OnHold(v.s, v.orders[id])
  {
    if id in v.orders {
      assert v.orders[id].id == id;
      JudgedAlike(v, id);
      if Here(v.s, v.orders[id]) && v.orders[id].state == Open {
        assert id in v.Candidates() && id in v.Opened() && id !in v.Gone() && id !in v.departed;
        assert !v.Repairs(id);
      }
    }
  }

  /** Exactly when a bill newly joins: it was read open here, newer than every version known of it or the same
      record, and not on hold. */
  lemma BillJoinsExactly(s: SyncState, e: PollEvent, id: Uuid)
    requires Weighed(s, e) && id !in s.active
    ensures id in After(s, e).active <==>
            && id in ReadBills(s, e) && Here(s, ReadBills(s, e)[id]) && ReadBills(s, e)[id].state == Open
            && Newest(s, e.known, ReadBills(s, e)[id]) && !OnHold(s, ReadBills(s, e)[id])
  {
    var v := ViewOfPoll(s, e);
    JoinsExactly(v, id);
  }

  // ----- The ledger row a bill gets

  /** The table keeps a row of the bill: it sits here, is saved, is already in the ledger, or is still being created
      nowhere in particular. */
  predicate Concerns(s: SyncState, o: Order) {
    Here(s, o) || o.id in s.active || o.id in s.versions || (o.state == Unknown && o.tables == {})
  }

  /** Some known version is newer than the read. */
  ghost predicate Outdated(s: SyncState, known: set<VersionRow>, o: Order) {
    exists v :: v in KnownOf(s, known, o.id) && v.timestamp > o.timestamp
  }

  /** What the bill means for this table. */
  ghost function VerdictHere(s: SyncState, o: Order, probes: seq<Probe>): Verdict {
    if Here(s, o) then o.state
    else if Elsewhere(s, o, probes) then Closed
    else if o.id in s.active then Unknown else o.state
  }

  /** The row after a poll: an outdated read leaves it; a contested version is put on hold, with no print; the newest
      is recorded with its meaning here; and one already on hold stays so, unless it is the very record of a bill
      gone elsewhere and the table may close. */
  ghost function RowAfter(s: SyncState, known: set<VersionRow>, o: Order, probes: seq<Probe>,
                          closes: bool): Option<Version> {
    if !Concerns(s, o) || Outdated(s, known, o) then VersionOf(s, o.id)
    else if !Newest(s, known, o) then Some(Version(o.timestamp, Unknown, None))
    else if OnHold(s, o) && !(Elsewhere(s, o, probes) && closes) then VersionOf(s, o.id)
    else Some(Version(o.timestamp, VerdictHere(s, o, probes), Some(Print(o))))
  }

  lemma OutdatedExactly(v: View, id: Uuid)
    requires v.Sound() && id in v.orders
    ensures v.Stale(id) <==> Outdated(v.s, v.known, v.orders[id])
  {
    assert v.orders[id].id == id;
    forall k ensures k in KnownOf(v.s, v.known, id) <==>
      k in v.Known(id) || (id in v.s.versions && k == v.s.versions[id])
    {
    }
  }

  lemma VerdictsAgree(v: View, probes: seq<Probe>, id: Uuid)
    requires v.Sound() && DepartsElsewhere(v, probes) && id in v.orders
    ensures v.EvidenceState(id) == VerdictHere(v.s, v.orders[id], probes)
    ensures id in v.Candidates() <==> Concerns(v.s, v.orders[id])
  {
    assert v.orders[id].id == id;
  }

  lemma ViewRows(v: View, probes: seq<Probe>, id: Uuid)
    requires v.Sound() && DepartsElsewhere(v, probes)
    ensures (if id in v.NextVersions() then Some(v.NextVersions()[id]) else None)
            == (if id in v.orders then RowAfter(v.s, v.known, v.orders[id], probes, v.CanClose())
                else VersionOf(v.s, id))
  {
    if id in v.orders {
      assert v.orders[id].id == id;
      JudgedAlike(v, id);
      OutdatedExactly(v, id);
      VerdictsAgree(v, probes, id);
      if Newest(v.s, v.known, v.orders[id]) && OnHold(v.s, v.orders[id]) {
        assert v.s.versions[id] in KnownOf(v.s, v.known, id);
        assert v.Repairs(id) <==> Elsewhere(v.s, v.orders[id], probes);
      }
    }
  }

  lemma LedgerAfter(s: SyncState, e: PollEvent, id: Uuid)
    requires Weighed(s, e)
    ensures VersionOf(After(s, e), id)
            == if id in ReadBills(s, e)
               then RowAfter(s, e.known, ReadBills(s, e)[id], Probes(e.input), e.visible && Settled(s, e))
               else VersionOf(s, id)
  {
    var v := ViewOfPoll(s, e);
    ClosableExactly(s, e, v);
    ViewRows(v, Probes(e.input), id);
  }

  // ----- What else a poll leaves and reports

  lemma ViewReports(v: View, d: Diagnostic)
    ensures d in v.Diagnostics() <==>
            match d
            case StaleOrder => exists id :: id in v.Candidates() && v.Assess(id) == Ignored(true)
            case UnknownOrders => v.UnknownSeen() || !NothingOnHold(v.NextVersions())
            case ConflictingVersions =>
              || (exists id :: id in v.Candidates() && v.Assess(id).Conflict?)
              || (exists id :: id in v.NextVersions() && v.NextVersions()[id].state == Unknown
                               && v.NextVersions()[id].fingerprint.None?)
            case VisibilityNotVerified => !v.visible
            case _ => false
  {
  }

  lemma OutdatedReads(v: View, probes: seq<Probe>)
    requires v.Sound() && DepartsElsewhere(v, probes)
    ensures (exists id :: id in v.Candidates() && v.Assess(id) == Ignored(true))
            <==> exists id :: id in v.orders && Concerns(v.s, v.orders[id]) && Outdated(v.s, v.known, v.orders[id])
  {
    forall id | id in v.orders
      ensures id in v.Candidates() && v.Assess(id) == Ignored(true) <==>
              Concerns(v.s, v.orders[id]) && Outdated(v.s, v.known, v.orders[id])
    {
      OutdatedExactly(v, id);
      VerdictsAgree(v, probes, id);
    }
  }

  lemma ContestedReads(v: View, id: Uuid)
    requires id in v.Candidates() && v.Assess(id).Conflict?
    ensures id in v.NextVersions() && v.NextVersions()[id] == Version(v.orders[id].timestamp, Unknown, None)
  {
  }

  /** The whole outcome of a poll that weighs what it read. */
  lemma PollOutcome(s: SyncState, e: PollEvent) returns (v: View)
    requires Weighed(s, e)
    ensures v == ViewOf(s, e, ReadBills(s, e)) && v.Sound() && DepartsElsewhere(v, Probes(e.input))
    ensures After(s, e) == (if v.Next() == s then s else v.Next().(revision := e.fence.nextRevision))
    ensures ReducePoll(s, e).value.changed <==> v.Next() != s
    ensures ReducePoll(s, e).value.diagnostics == v.Diagnostics()
  {
    v := ViewOfPoll(s, e);
    WeighedOutcome(s, e);
  }

  lemma ViewRest(v: View)
    requires v.Sound()
    ensures v.Next().scope == v.s.scope && v.Next().revision == v.s.revision
    ensures v.Next().freed == v.s.freed * v.Next().active
    ensures v.Next().last == if v.Next().active != {} then Open else if v.s.active != {} then Closed else v.s.last
  {
    if v.NextActive() == {} && v.s.active != {} {
      var id :| id in v.s.active;
      RemovedExactly(v, id);
    }
  }

  /** Suppressions stay with the bills that stay; the table was last open, closed by this poll, or as before. */
  lemma RestAfter(s: SyncState, e: PollEvent)
    requires Weighed(s, e)
    ensures After(s, e).scope == s.scope && After(s, e).freed == s.freed * After(s, e).active
    ensures After(s, e).last
            == if After(s, e).active != {} then Open else if s.active != {} then Closed else s.last
    ensures After(s, e).revision == if ReducePoll(s, e).value.changed then e.fence.nextRevision else s.revision
    ensures ReducePoll(s, e).value.changed <==> After(s, e).(revision := s.revision) != s
    ensures !ReducePoll(s, e).value.changed ==> After(s, e) == s
  {
    var v := PollOutcome(s, e);
    ViewRest(v);
  }

  ghost predicate Reports(s: SyncState, e: PollEvent, d: Diagnostic)
    requires ReducePoll(s, e).Done?
  {
    d in ReducePoll(s, e).value.diagnostics
  }

  /** A stale bill is reported exactly when an outdated read concerns the table. */
  lemma StaleIsReported(s: SyncState, e: PollEvent)
    requires Weighed(s, e)
    ensures Reports(s, e, StaleOrder) <==>
            exists id :: id in ReadBills(s, e) && Concerns(s, ReadBills(s, e)[id])
                         && Outdated(s, e.known, ReadBills(s, e)[id])
  {
    var v := PollOutcome(s, e);
    ViewReports(v, StaleOrder);
    OutdatedReads(v, Probes(e.input));
  }

  /** Unknown bills are reported exactly when the table is not settled, and nothing but these four things ever. */
  lemma UnknownIsReported(s: SyncState, e: PollEvent)
    requires Weighed(s, e)
    ensures Reports(s, e, UnknownOrders) <==> !Settled(s, e)
    ensures Reports(s, e, VisibilityNotVerified) <==> !e.visible
    ensures !Reports(s, e, ScopeChanged) && !Reports(s, e, LocalRevisionChanged) && !Reports(s, e, ObservationUnknown)
  {
    var v := PollOutcome(s, e);
    AllReadExactly(v, Probes(e.input));
    ViewReports(v, UnknownOrders);
    ViewReports(v, VisibilityNotVerified);
    ViewReports(v, ScopeChanged);
    ViewReports(v, LocalRevisionChanged);
    ViewReports(v, ObservationUnknown);
  }

  /** A conflict is reported exactly when the next ledger holds a contested version. */
  lemma ConflictIsReported(s: SyncState, e: PollEvent)
    requires Weighed(s, e)
    ensures Reports(s, e, ConflictingVersions) <==>
            exists id :: id in After(s, e).versions && After(s, e).versions[id].state == Unknown
                         && After(s, e).versions[id].fingerprint.None?
  {
    var v := PollOutcome(s, e);
    ViewReports(v, ConflictingVersions);
    if id :| id in v.Candidates() && v.Assess(id).Conflict? { ContestedReads(v, id); }
  }
}
