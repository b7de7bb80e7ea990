/** Many tables, one shared set of known versions, any interleaving of polls, notifications, staff actions
    and adoptions of a new configuration; each event is one serialized transaction,
      which a thrown step leaves without effect. */
module SyrveSystem {
  import opened Basics
  import opened SyrveOrders
  import opened SyrveObserver
  import opened SyrveState
  import opened SyrveEvidence
  import opened SyrvePoll
  import opened SyrvePollTheorems
  import opened SyrveWebhook

  type System = seq<SyncState>

  datatype Event =
    | Poll(table: nat, fence: Fence, input: ProbeInput, visible: bool)
    | Notify(order: Order, topology: Topology, revisions: seq<Uuid>)
    | Staff(table: nat, staffFence: Fence, action: StaffAction)
    | Adopt(table: nat, configurationRevision: Uuid, revision: Uuid)

  datatype StepResult = StepResult(next: System, emitted: seq<Option<TableEvent>>)

  /** The linked tables of one integration and organization. */
  ghost predicate ValidSystem(sys: System) {
    && (forall s :: s in sys ==> Valid(s))
    && (forall i, j :: 0 <= i < j < |sys| ==> sys[i].scope.syrveTable != sys[j].scope.syrveTable)
    && (forall i, j :: 0 <= i < j < |sys| ==> Shares(sys[i].scope, sys[j].scope))
  }

  /** Ledgers are shared within one integration and organization. */
  predicate Shares(a: Scope, b: Scope) { a.integration == b.integration && a.organization == b.organization }

  /** The same table bound to the same provider table, whatever the configuration's revision. */
  predicate SameBinding(a: Scope, b: Scope) { a.(configurationRevision := b.configurationRevision) == b }

  /** A saved state found under another configuration revision than the settings' is taken over: the new scope and
      a new revision fence out old requests, while bills, suppressions and ledger stay. */
  function Adopted(s: SyncState, configurationRevision: Uuid, revision: Uuid): SyncState {
    if s.scope.configurationRevision == configurationRevision then s
    else s.(scope := s.scope.(configurationRevision := configurationRevision), revision := revision)
  }

  function ObservedIds(input: ProbeInput): set<Uuid> {
    set p, o | p in Probes(input) && o in ReadRows(p) :: o.id
  }

  /** Every version any table sharing this scope knows of the bills a poll observed. */
  function KnownRows(sys: System, ids: set<Uuid>, scope: Scope): set<VersionRow> {
    set s, id | s in sys && Shares(s.scope, scope) && id in s.versions && id in ids :: VersionRow(id, s.versions[id])
  }

  function Silence(n: nat): (silence: seq<Option<TableEvent>>)
    ensures |silence| == n && forall i :: 0 <= i < n ==> silence[i] == None
  {
    seq(n, _ => None)
  }

  function PollOf(sys: System, e: Event): PollEvent
    requires e.Poll? && e.table < |sys|
  {
    PollEvent(e.fence, e.input, e.visible, KnownRows(sys, ObservedIds(e.input), sys[e.table].scope))
  }

  ghost function Step(sys: System, e: Event): (r: StepResult)
    ensures |r.next| == |r.emitted| == |sys|
  {
    var idle := StepResult(sys, Silence(|sys|));
    match e
    case Poll(table, _, _, _) =>
      if table >= |sys| then idle
      else (match ReducePoll(sys[table], PollOf(sys, e))
            case Thrown => idle
            case Done(t) => StepResult(sys[table := t.state], Silence(|sys|)[table := StatusEvent(sys[table], t)]))
    case Notify(order, topology, revisions) =>
      (match ReduceWebhook(sys, order, topology, revisions)
       case Thrown => idle
       case Done(results) =>
         StepResult(seq(|sys|, i requires 0 <= i < |results| => results[i].transition.state),
                    seq(|sys|, i requires 0 <= i < |results| => results[i].status)))
    case Staff(table, fence, action) =>
      if table >= |sys| then idle
      else (match ReduceStaffAction(sys[table], fence, action)
            case Thrown => idle
            case Done(t) => StepResult(sys[table := t.state], Silence(|sys|)))
    case Adopt(table, configurationRevision, revision) =>
      if table >= |sys| then idle
      else StepResult(sys[table := Adopted(sys[table], configurationRevision, revision)], Silence(|sys|))
  }

  ghost function Exec(sys: System, events: seq<Event>): (r: System)
    ensures |r| == |sys|
  {
    if events == [] then sys else Step(Exec(sys, events[..|events| - 1]), events[|events| - 1]).next
  }

  // ----- One step

  /** What every event does to each table's state. */
  ghost predicate KeepsLedger(s: SyncState, next: SyncState) {
    Valid(next) && SameBinding(next.scope, s.scope) && Advances(s.versions, next.versions)
  }

  lemma StepKeepsLedgers(sys: System, e: Event, i: nat)
    requires ValidSystem(sys) && i < |sys|
    ensures KeepsLedger(sys[i], Step(sys, e).next[i])
  {
    assert sys[i] in sys;
    match e
    case Poll(table, _, _, _) =>
      if table == i && ReducePoll(sys[i], PollOf(sys, e)).Done? {
        var _ := PollKeepsOrWeighs(sys[i], PollOf(sys, e));
      }
    case Notify(order, topology, revisions) => NotificationKeepsLedgers(sys, order, topology, revisions, i);
    case _ =>
  }

  lemma NotificationKeepsLedgers(sys: System, order: Order, topology: Topology, revisions: seq<Uuid>, i: nat)
    requires ValidSystem(sys) && i < |sys|
    ensures KeepsLedger(sys[i], Step(sys, Notify(order, topology, revisions)).next[i])
  {
    var out, h := ReduceWebhook(sys, order, topology, revisions), Hook(sys, order, topology);
    assert sys[i] in sys;
    if out.Done? && !h.Stale() {
      assert out.value[i] == h.Step(sys[i], revisions[i]).value;
      WebhookKeepsValid(h, sys[i], revisions[i]);
      WebhookAdvances(h, sys[i], revisions[i]);
    }
  }

  lemma StepKeepsSystem(sys: System, e: Event)
    requires ValidSystem(sys)
    ensures ValidSystem(Step(sys, e).next)
  {
    var next := Step(sys, e).next;
    forall i | 0 <= i < |sys| ensures Valid(next[i]) && SameBinding(next[i].scope, sys[i].scope) {
      StepKeepsLedgers(sys, e, i);
    }
  }

  lemma {:induction false} JoinAllIds(ledgers: seq<map<Uuid, Order>>, ids: set<Uuid>)
    requires forall l :: l in ledgers ==> l.Keys <= ids
    ensures JoinAll(ledgers).Keys <= ids
  {
    if ledgers != [] {
      assert ledgers[|ledgers| - 1] in ledgers;
      JoinAllIds(ledgers[..|ledgers| - 1], ids);
    }
  }

  lemma PageSeesOnlyItsRows(s: SyncState, planned: set<Uuid>, batch: Batch, paged: bool, id: Uuid)
    requires ReadPage(s, planned, batch, paged).PageSeen? && id in ReadPage(s, planned, batch, paged).orders
    ensures exists o :: o in ReadRows(batch.probe) && o.id == id
  {
    MergeMeaning(ReadRows(batch.probe), id);
  }

  lemma EvidenceIsObserved(s: SyncState, input: ProbeInput)
    requires EvidenceFrom(s, input).Evidence?
    ensures EvidenceFrom(s, input).orders.Keys <= ObservedIds(input)
  {
    var pages, n := PagesFrom(s, input), |Plan(s)|;
    var ledgers := Gather(pages, n).ledgers;
    GatheredPages(pages, n);
    forall l, id | l in ledgers && id in l ensures id in ObservedIds(input) {
      var i :| 0 <= i < n && ledgers[i] == l;
      var batch := Batches(s, input)[i];
      PageAt(s, input, i);
      PageSeesOnlyItsRows(s, Plan(s)[i], batch, input.Paged?, id);
      assert Probes(input)[i] == batch.probe;
    }
    JoinAllIds(ledgers, ObservedIds(input));
  }

  /** The rows a poll is given hold every version its peers know of the bills it opens. */
  lemma PollOpeningIsNewest(sys: System, e: Event, id: Uuid)
    requires ValidSystem(sys) && e.Poll? && e.table < |sys| && ReducePoll(sys[e.table], PollOf(sys, e)).Done?
    requires id !in sys[e.table].active && id in ReducePoll(sys[e.table], PollOf(sys, e)).value.state.active
    ensures var after := ReducePoll(sys[e.table], PollOf(sys, e)).value.state;
            && id in after.versions && OpensWith(after.versions[id], sys[e.table].scope.syrveTable)
            && forall s :: s in sys && id in s.versions ==> Dominates(after.versions[id], s.versions[id])
  {
    var p := PollOf(sys, e);
    PollOpensOnlyNewest(sys[e.table], p, id);
    EvidenceIsObserved(sys[e.table], e.input);
    var v := PollKeepsOrWeighs(sys[e.table], p);
    assert id in ObservedIds(e.input);
    forall s | s in sys && id in s.versions ensures VersionRow(id, s.versions[id]) in p.known {
      AllShare(sys, s, e.table);
    }
  }

  lemma AllShare(sys: System, s: SyncState, i: nat)
    requires ValidSystem(sys) && s in sys && i < |sys|
    ensures Shares(s.scope, sys[i].scope)
  {
    var j :| 0 <= j < |sys| && sys[j] == s;
  }

  /** A bill that newly becomes active anywhere carries an open record listing that table, at least as
      new as every version known on every table, and identical to every equally new one. */
  lemma OpeningsAreNewest(sys: System, e: Event, i: nat, id: Uuid)
    requires ValidSystem(sys) && i < |sys|
    requires id !in sys[i].active && id in Step(sys, e).next[i].active
    ensures var after := Step(sys, e).next[i];
            && id in after.versions && OpensWith(after.versions[id], after.scope.syrveTable)
            && SameBinding(after.scope, sys[i].scope)
            && forall s :: s in sys && id in s.versions ==> Dominates(after.versions[id], s.versions[id])
  {
    assert sys[i] in sys;
    StepKeepsLedgers(sys, e, i);
    match e
    case Poll(table, _, _, _) => PollOpeningIsNewest(sys, e, id);
    case Notify(order, topology, revisions) =>
      var out, h := ReduceWebhook(sys, order, topology, revisions), Hook(sys, order, topology);
      assert out.Done? && !h.Stale();
      assert out.value[i] == h.Step(sys[i], revisions[i]).value;
      WebhookOpensOnlyNewest(h, sys[i], revisions[i], id);
    case _ =>
  }

  // ----- Whole runs

  lemma {:induction false} RunKeepsSystem(sys: System, events: seq<Event>)
    requires ValidSystem(sys)
    ensures ValidSystem(Exec(sys, events))
  {
    if events != [] {
      RunKeepsSystem(sys, events[..|events| - 1]);
      StepKeepsSystem(Exec(sys, events[..|events| - 1]), events[|events| - 1]);
    }
  }

  lemma AdvancesTransitive(a: map<Uuid, Version>, b: map<Uuid, Version>, c: map<Uuid, Version>)
    requires Advances(a, b) && Advances(b, c) && forall id :: id in a ==> ValidVersion(a[id])
    ensures Advances(a, c)
  {
  }

  /** Along any run no ledger id is dropped, no timestamp decreases, a version keeps its identity, and a
      conflict stays unknown until a strictly newer version. */
  lemma {:induction false} RunAdvancesLedgers(sys: System, events: seq<Event>, from: nat, i: nat)
    requires ValidSystem(sys) && from <= |events| && i < |sys|
    ensures Advances(Exec(sys, events[..from])[i].versions, Exec(sys, events)[i].versions)
    ensures SameBinding(Exec(sys, events)[i].scope, sys[i].scope)
    decreases |events|
  {
    if from == |events| {
      assert events[..from] == events;
      if events != [] {
        var n := |events| - 1;
        RunAdvancesLedgers(sys, events[..n], n, i);
        RunKeepsSystem(sys, events[..n]);
        StepKeepsLedgers(Exec(sys, events[..n]), events[n], i);
      }
    } else {
      var n := |events| - 1;
      assert events[..n][..from] == events[..from];
      RunAdvancesLedgers(sys, events[..n], from, i);
      RunKeepsSystem(sys, events[..n]);
      RunKeepsSystem(sys, events[..from]);
      StepKeepsLedgers(Exec(sys, events[..n]), events[n], i);
      assert Exec(sys, events[..from])[i] in Exec(sys, events[..from]);
      AdvancesTransitive(Exec(sys, events[..from])[i].versions, Exec(sys, events[..n])[i].versions,
                         Exec(sys, events)[i].versions);
    }
  }

  /** `row` is an open record that lists `table`. */
  predicate Admits(row: Version, table: Uuid) {
    row.fingerprint.Some? && row.fingerprint.value.state == Open && table in row.fingerprint.value.tables
  }

  lemma StepReopensOnlyNewer(sys: System, e: Event, a: nat, b: nat, id: Uuid, row: Version)
    requires ValidSystem(sys) && a < |sys| && b < |sys|
    requires id in sys[b].versions && Supersedes(row, sys[b].versions[id])
    requires !Admits(row, sys[a].scope.syrveTable)
    requires id !in sys[a].active && id in Step(sys, e).next[a].active
    ensures id in Step(sys, e).next[a].versions
    ensures Step(sys, e).next[a].versions[id].timestamp > row.timestamp
  {
    OpeningsAreNewest(sys, e, a, id);
    assert sys[b] in sys;
    var reopening := Step(sys, e).next[a].versions[id];
    assert Dominates(reopening, sys[b].versions[id]);
    assert OpensWith(reopening, sys[a].scope.syrveTable);
  }

  /** No delayed poll or notification reopens a bill: once any table knows a version of it that closes
      it, moves it away from table `a`, or is contested, a later opening on `a` is strictly newer. */
  lemma NoDelayedReopening(sys: System, events: seq<Event>, i: nat, j: nat, a: nat, b: nat, id: Uuid)
    requires ValidSystem(sys) && i <= j < |events| && a < |sys| && b < |sys|
    requires id in Exec(sys, events[..i])[b].versions
    requires !Admits(Exec(sys, events[..i])[b].versions[id], sys[a].scope.syrveTable)
    requires id !in Exec(sys, events[..j])[a].active && id in Exec(sys, events[..j + 1])[a].active
    ensures id in Exec(sys, events[..j + 1])[a].versions
    ensures Exec(sys, events[..j + 1])[a].versions[id].timestamp > Exec(sys, events[..i])[b].versions[id].timestamp
  {
    var mid := Exec(sys, events[..j]);
    assert events[..j + 1][..j] == events[..j];
    assert Exec(sys, events[..j + 1]) == Step(mid, events[j]).next;
    RunKeepsSystem(sys, events[..j]);
    assert events[..j][..i] == events[..i];
    RunAdvancesLedgers(sys, events[..j], i, b);
    RunAdvancesLedgers(sys, events[..j], i, a);
    StepReopensOnlyNewer(mid, events[j], a, b, id, Exec(sys, events[..i])[b].versions[id]);
  }

  // ----- Event discipline

  /** The physical events of table `i`, one slot per step. */
  ghost function Emitted(sys: System, events: seq<Event>, i: nat): (slots: seq<Option<TableEvent>>)
    requires i < |sys|
    ensures |slots| == |events|
  {
    if events == [] then []
    else
      var n := |events| - 1;
      Emitted(sys, events[..n], i) + [Step(Exec(sys, events[..n]), events[n]).emitted[i]]
  }

  predicate AllVisible(events: seq<Event>) {
    forall e :: e in events ==> e.Poll? ==> e.visible
  }

  lemma SummarySilences(unknownSeen: bool, versions: map<Uuid, Version>, visible: bool)
    ensures Summary(unknownSeen, versions, visible) !! SILENCING <==> visible
  {
    assert VisibilityNotVerified in Summary(unknownSeen, versions, visible) <==> !visible;
  }

  lemma FindingsAreHeard(v: View)
    ensures v.Found() !! SILENCING
  {
  }

  lemma OnlyVisibilitySilences(v: View)
    ensures v.Diagnostics() !! SILENCING <==> v.visible
  {
    FindingsAreHeard(v);
    SummarySilences(v.UnknownSeen(), v.NextVersions(), v.visible);
  }

  /** Without verified visibility even an opening is silent. */
  lemma OpeningSpeaksIffVisible(s: SyncState, e: PollEvent)
    requires Valid(s) && ReducePoll(s, e).Done? && !(ReducePoll(s, e).value.state.active <= s.active)
    ensures StatusEvent(s, ReducePoll(s, e).value) == if e.visible then Some(Occupied) else None
  {
    var v := ViewOf(s, e, EvidenceFrom(s, e.input).orders);
    OnlyVisibilitySilences(v);
    assert ReducePoll(s, e).value == Transition(v.Next().(revision := e.fence.nextRevision), true, v.Diagnostics());
  }

  /** Every saved bill left, and at least one of them for a reason newer than a repaired old record. */
  predicate GenuinelyEmptied(before: SyncState, after: SyncState) {
    && before.active != {} && after.active == {}
    && exists id :: id in before.active && !IsLegacyTransferRepair(VersionOf(before, id), VersionOf(after, id))
  }

  /** `occupied` is emitted exactly when a bill newly joins other than through a poll without verified
      visibility, and `free` exactly when the last bills leave for more than legacy repairs: a pure repair is
      silent. */
  lemma StepSpeaks(sys: System, e: Event, i: nat)
    requires ValidSystem(sys) && i < |sys|
    ensures Step(sys, e).emitted[i] == Some(Occupied) <==>
            !(Step(sys, e).next[i].active <= sys[i].active) && (e.Poll? ==> e.visible)
    ensures Step(sys, e).emitted[i] == Some(Free) <==> GenuinelyEmptied(sys[i], Step(sys, e).next[i])
  {
    assert sys[i] in sys;
    match e
    case Poll(table, _, _, _) =>
      if table == i && ReducePoll(sys[i], PollOf(sys, e)).Done? {
        PollSpeaks(sys[i], PollOf(sys, e));
      }
    case Notify(order, topology, revisions) =>
      var out, h := ReduceWebhook(sys, order, topology, revisions), Hook(sys, order, topology);
      if out.Done? && !h.Stale() {
        assert out.value[i] == h.Step(sys[i], revisions[i]).value;
        WebhookSpeaks(h, sys[i], revisions[i]);
      }
    case _ =>
  }

  lemma PollSpeaks(s: SyncState, e: PollEvent)
    requires Valid(s) && ReducePoll(s, e).Done?
    ensures var t := ReducePoll(s, e).value;
            && (StatusEvent(s, t) == Some(Occupied) <==> !(t.state.active <= s.active) && e.visible)
            && (StatusEvent(s, t) == Some(Free) <==> GenuinelyEmptied(s, t.state))
  {
    var t := ReducePoll(s, e).value;
    if t.state != s {
      var v := ViewOf(s, e, EvidenceFrom(s, e.input).orders);
      OnlyVisibilitySilences(v);
      assert t == Transition(v.Next().(revision := e.fence.nextRevision), true, v.Diagnostics());
      if s.active != {} && t.state.active == {} {
        var id :| id in s.active;
        assert id !in v.NextActive() && v.CanClose();
      }
    }
  }

  lemma WebhookSpeaks(h: Hook, s: SyncState, revision: Uuid)
    requires Valid(s) && s in h.states && !h.Stale() && h.Step(s, revision).Done?
    ensures var r := h.Step(s, revision).value;
            && (r.status == Some(Occupied) <==> !(r.transition.state.active <= s.active))
            && (r.status == Some(Free) <==> GenuinelyEmptied(s, r.transition.state))
  {
    var id := h.order.id;
    var after := h.Step(s, revision).value.transition.state;
    assert h.Diagnostics(s) !! SILENCING;
    if after.active == {} && s.active != {} {
      assert h.Closes(s) && s.active == {id} by {
        var some :| some in s.active;
        assert some !in h.NextActive(s);
      }
      assert IsLegacyTransferRepair(VersionOf(s, id), VersionOf(after, id)) <==> h.Repairs(s);
    }
  }

  lemma {:induction false} EmittedPrefix(sys: System, events: seq<Event>, i: nat, n: nat)
    requires i < |sys| && n <= |events|
    ensures Emitted(sys, events, i)[..n] == Emitted(sys, events[..n], i)
  {
    if n < |events| {
      var m := |events| - 1;
      EmittedPrefix(sys, events[..m], i, n);
      assert events[..m][..n] == events[..n];
      assert Emitted(sys, events, i)[..m] == Emitted(sys, events[..m], i);
    } else {
      assert events[..n] == events;
    }
  }

  lemma EmittedAt(sys: System, events: seq<Event>, i: nat, j: nat)
    requires i < |sys| && j < |events|
    ensures Emitted(sys, events, i)[j] == Step(Exec(sys, events[..j]), events[j]).emitted[i]
  {
    EmittedPrefix(sys, events, i, j + 1);
    assert events[..j + 1][..j] == events[..j];
    assert Emitted(sys, events, i)[j] == Emitted(sys, events, i)[..j + 1][j];
  }

  /** The active bills of table `i` before the first step and after each one. */
  ghost function Actives(sys: System, events: seq<Event>, i: nat): (actives: seq<set<Uuid>>)
    requires i < |sys|
    ensures |actives| == |events| + 1
    ensures forall k :: 0 <= k <= |events| ==> actives[k] == Exec(sys, events[..k])[i].active
  {
    seq(|events| + 1, k requires 0 <= k <= |events| => Exec(sys, events[..k])[i].active)
  }

  /** A bill newly joins at step `k`. */
  predicate Opens(actives: seq<set<Uuid>>, k: nat) { k + 1 < |actives| && !(actives[k + 1] <= actives[k]) }

  /** No `free` after step `k` and before step `j`. */
  predicate NoFreeBetween(said: seq<Option<TableEvent>>, k: nat, j: nat) {
    forall m :: k < m < j && m < |said| ==> said[m] != Some(Free)
  }

  /** A `free` empties the table. */
  predicate FreeEmpties(actives: seq<set<Uuid>>, said: seq<Option<TableEvent>>) {
    && |actives| == |said| + 1
    && forall k :: 0 <= k < |said| && said[k] == Some(Free) ==> actives[k] != {} && actives[k + 1] == {}
  }

  /** The last opening of a table that has bills came after its last `free`. */
  lemma {:induction false} ActiveMeansOpened(actives: seq<set<Uuid>>, said: seq<Option<TableEvent>>, j: nat)
    returns (k: nat)
    requires FreeEmpties(actives, said) && actives[0] == {} && j <= |said| && actives[j] != {}
    ensures k < j && Opens(actives, k) && NoFreeBetween(said, k, j)
  {
    if Opens(actives, j - 1) {
      k := j - 1;
    } else {
      k := ActiveMeansOpened(actives, said, j - 1);
    }
  }

  lemma HeardAt(sys: System, events: seq<Event>, i: nat, k: nat)
    requires ValidSystem(sys) && i < |sys| && k < |events|
    ensures var (actives, said) := (Actives(sys, events, i), Emitted(sys, events, i));
            && (said[k] == Some(Occupied) <==> Opens(actives, k) && (events[k].Poll? ==> events[k].visible))
            && (said[k] == Some(Free) ==> actives[k] != {} && actives[k + 1] == {})
  {
    EmittedAt(sys, events, i, k);
    assert events[..k + 1][..k] == events[..k];
    RunKeepsSystem(sys, events[..k]);
    StepSpeaks(Exec(sys, events[..k]), events[k], i);
  }

  /** Event discipline: started without active bills, each `free` of a table follows an opening of it, silent or
      not, with no other `free` in between. */
  lemma FreeFollowsOpening(sys: System, events: seq<Event>, i: nat, j: nat) returns (k: nat)
    requires ValidSystem(sys) && i < |sys| && sys[i].active == {}
    requires j < |events| && Emitted(sys, events, i)[j] == Some(Free)
    ensures k < j && Opens(Actives(sys, events, i), k) && NoFreeBetween(Emitted(sys, events, i), k, j)
  {
    forall m | 0 <= m < |events| && Emitted(sys, events, i)[m] == Some(Free)
      ensures Actives(sys, events, i)[m] != {} && Actives(sys, events, i)[m + 1] == {}
    {
      HeardAt(sys, events, i, m);
    }
    assert events[..0] == [];
    k := ActiveMeansOpened(Actives(sys, events, i), Emitted(sys, events, i), j);
  }

  /** Some opening since the last `free` was not by a poll without verified visibility. */
  ghost predicate HeardSince(sys: System, events: seq<Event>, i: nat, j: nat)
    requires i < |sys| && j <= |events|
  {
    exists k :: 0 <= k < j && Opens(Actives(sys, events, i), k) && NoFreeBetween(Emitted(sys, events, i), k, j)
                && (events[k].Poll? ==> events[k].visible)
  }

  /** An `occupied` came before step `j`, with no `free` in between. */
  ghost predicate OccupiedBefore(said: seq<Option<TableEvent>>, j: nat) {
    exists k :: 0 <= k < j && k < |said| && said[k] == Some(Occupied) && NoFreeBetween(said, k, j)
  }

  /** Those openings are all that `occupied` is said of. */
  lemma OccupiedExactlyWhenHeard(sys: System, events: seq<Event>, i: nat, j: nat)
    requires ValidSystem(sys) && i < |sys| && j <= |events|
    ensures OccupiedBefore(Emitted(sys, events, i), j) <==> HeardSince(sys, events, i, j)
  {
    var said := Emitted(sys, events, i);
    if OccupiedBefore(said, j) {
      var k :| 0 <= k < j && k < |said| && said[k] == Some(Occupied) && NoFreeBetween(said, k, j);
      HeardAt(sys, events, i, k);
    }
    if HeardSince(sys, events, i, j) {
      var k :| 0 <= k < j && Opens(Actives(sys, events, i), k) && NoFreeBetween(said, k, j)
               && (events[k].Poll? ==> events[k].visible);
      HeardAt(sys, events, i, k);
    }
  }

  /** So with every poll's visibility verified each `free` follows an `occupied` with no other `free` in between. */
  lemma FreeFollowsOccupied(sys: System, events: seq<Event>, i: nat, j: nat)
    requires ValidSystem(sys) && AllVisible(events) && i < |sys| && sys[i].active == {}
    requires j < |events| && Emitted(sys, events, i)[j] == Some(Free)
    ensures OccupiedBefore(Emitted(sys, events, i), j)
  {
    var k := FreeFollowsOpening(sys, events, i, j);
    assert events[k] in events;
    OccupiedExactlyWhenHeard(sys, events, i, j);
  }

  // ----- Adopting a configuration

  /** The request was captured under a configuration revision the table has left. */
  predicate CapturedUnder(e: Event, i: nat, configurationRevision: Uuid) {
    || (e.Poll? && e.table == i && e.fence.expectedScope.configurationRevision == configurationRevision)
    || (e.Staff? && e.table == i && e.staffFence.expectedScope.configurationRevision == configurationRevision)
  }

  /** Until the old configuration revision itself is adopted again, no poll or staff action captured under it
      changes the table or says anything. */
  lemma {:induction false} AdoptionFencesOldRequests(sys: System, events: seq<Event>, i: nat, left: Uuid, e: Event)
    requires ValidSystem(sys) && i < |sys| && sys[i].scope.configurationRevision != left
    requires forall a :: a in events && a.Adopt? && a.table == i ==> a.configurationRevision != left
    requires CapturedUnder(e, i, left)
    ensures Exec(sys, events)[i].scope.configurationRevision != left
    ensures Step(Exec(sys, events), e) == StepResult(Exec(sys, events), Silence(|sys|))
  {
    ConfigurationStaysLeft(sys, events, i, left);
    FencedOut(Exec(sys, events), e, i, left);
  }

  lemma FencedOut(sys: System, e: Event, i: nat, left: Uuid)
    requires i < |sys| && sys[i].scope.configurationRevision != left && CapturedUnder(e, i, left)
    ensures Step(sys, e) == StepResult(sys, Silence(|sys|))
  {
  }

  lemma {:induction false} ConfigurationStaysLeft(sys: System, events: seq<Event>, i: nat, left: Uuid)
    requires ValidSystem(sys) && i < |sys| && sys[i].scope.configurationRevision != left
    requires forall a :: a in events && a.Adopt? && a.table == i ==> a.configurationRevision != left
    ensures Exec(sys, events)[i].scope.configurationRevision != left
  {
    if events != [] {
      var n := |events| - 1;
      ConfigurationStaysLeft(sys, events[..n], i, left);
      RunKeepsSystem(sys, events[..n]);
      assert events[n] in events;
      StepKeepsConfiguration(Exec(sys, events[..n]), events[n], i);
    }
  }

  /** Only an adoption changes a table's configuration revision, and nothing else of its state but the fence. */
  lemma StepKeepsConfiguration(sys: System, e: Event, i: nat)
    requires ValidSystem(sys) && i < |sys|
    ensures !(e.Adopt? && e.table == i) ==> Step(sys, e).next[i].scope == sys[i].scope
    ensures e.Adopt? && e.table == i ==>
              var s := Step(sys, e).next[i];
              && s.scope.configurationRevision == e.configurationRevision && SameBinding(s.scope, sys[i].scope)
              && s == sys[i].(scope := s.scope, revision := s.revision)
  {
    assert sys[i] in sys;
  }
}
