/** The saved synchronization state of one table: its version ledger, active bills and revision fence. */
module SyrveState {
  import opened Basics
  import opened SyrveOrders

  datatype Scope = Scope(
    integration: Uuid, configurationRevision: Uuid, organization: Uuid, moloTable: Uuid, syrveTable: Uuid)

  /** Stands for the hash of the sanitized observer fields: a constructor, hence injective. */
  datatype Fingerprint = Fingerprint(
    status: Option<OrderStatus>, state: Verdict, reason: Option<Reason>, group: Option<Uuid>, tables: set<Uuid>)

  datatype Version = Version(timestamp: int, state: Verdict, fingerprint: Option<Fingerprint>)

  /** `active`, `freed` and the ledger are kept sorted in the source; here they are sets and a map. */
  datatype SyncState = SyncState(
    scope: Scope,
    revision: Uuid,
    last: Verdict,
    active: set<Uuid>,
    freed: set<Uuid>,
    versions: map<Uuid, Version>)

  datatype Diagnostic =
    | ScopeChanged | LocalRevisionChanged | ObservationUnknown | VisibilityNotVerified
    | UnknownOrders | StaleOrder | ConflictingVersions

  datatype Transition = Transition(state: SyncState, changed: bool, diagnostics: set<Diagnostic>)

  /** A step either throws, which aborts its transaction, or yields its result. */
  datatype Outcome<+T> = Thrown | Done(value: T)

  datatype TableEvent = Occupied | Free

  function Print(order: Order): Fingerprint {
    Fingerprint(order.status, order.state, order.reason, order.group, order.tables)
  }

  // ----- The representation invariant

  predicate SafeTimestamp(t: int) { 0 <= t <= MAX_SAFE_INTEGER }

  predicate ValidVersion(v: Version) {
    SafeTimestamp(v.timestamp) && (v.fingerprint.None? ==> v.state == Unknown)
  }

  predicate Valid(s: SyncState) {
    && s.freed <= s.active <= s.versions.Keys
    && (s.last == Open <==> s.active != {})
    && (forall id :: id in s.versions ==> ValidVersion(s.versions[id]))
  }

  // ----- Reading a stored state back

  datatype VersionRow = VersionRow(id: Uuid, version: Version)

  /** The arrays a stored state is made of. */
  datatype StoredState = StoredState(
    scope: Scope, revision: Uuid, last: Verdict, active: seq<Uuid>, freed: seq<Uuid>, rows: seq<VersionRow>)

  predicate Distinct<T(==)>(values: seq<T>) {
    forall i, j :: 0 <= i < j < |values| ==> values[i] != values[j]
  }

  predicate DistinctIds(rows: seq<VersionRow>) {
    forall i, j :: 0 <= i < j < |rows| ==> rows[i].id != rows[j].id
  }

  function Elements(values: seq<Uuid>): set<Uuid> { set v | v in values }

  function Ledger(rows: seq<VersionRow>): (ledger: map<Uuid, Version>)
    ensures ledger.Keys == set i | 0 <= i < |rows| :: rows[i].id
  {
    if rows == [] then map[] else Ledger(rows[..|rows| - 1])[rows[|rows| - 1].id := rows[|rows| - 1].version]
  }

  function CopyState(stored: StoredState): (copy: Outcome<SyncState>)
    ensures copy.Done? ==> Valid(copy.value)
  {
    if !Distinct(stored.active) || !Distinct(stored.freed) then Thrown
    else if exists r :: r in stored.rows && !ValidVersion(r.version) then Thrown
    else if !DistinctIds(stored.rows) then Thrown
    else
      var ledger, active, freed := Ledger(stored.rows), Elements(stored.active), Elements(stored.freed);
      if !(active <= ledger.Keys) || !(freed <= active) || (stored.last == Open) != (active != {}) then Thrown
      else
        LedgerRows(stored.rows);
        Done(SyncState(stored.scope, stored.revision, stored.last, active, freed, ledger))
  }

  lemma {:induction false} LedgerRows(rows: seq<VersionRow>)
    requires DistinctIds(rows)
    ensures forall r :: r in rows ==> r.id in Ledger(rows) && Ledger(rows)[r.id] == r.version
    ensures forall id :: id in Ledger(rows) ==> VersionRow(id, Ledger(rows)[id]) in rows
  {
    if rows != [] {
      var rest, last := rows[..|rows| - 1], rows[|rows| - 1];
      LedgerRows(rest);
      assert rows == rest + [last];
    }
  }

  /** `stored` holds exactly `s`, each element once, in any order. */
  ghost predicate Stores(stored: StoredState, s: SyncState) {
    && stored.scope == s.scope && stored.revision == s.revision && stored.last == s.last
    && Distinct(stored.active) && Elements(stored.active) == s.active
    && Distinct(stored.freed) && Elements(stored.freed) == s.freed
    && DistinctIds(stored.rows)
    && (forall r :: r in stored.rows ==> r.id in s.versions && s.versions[r.id] == r.version)
    && (forall id :: id in s.versions ==> VersionRow(id, s.versions[id]) in stored.rows)
  }

  lemma StoredLedger(stored: StoredState, s: SyncState)
    requires Stores(stored, s)
    ensures Ledger(stored.rows) == s.versions
  {
    LedgerRows(stored.rows);
    forall id ensures id in Ledger(stored.rows) <==> id in s.versions {
      if id in s.versions { assert VersionRow(id, s.versions[id]) in stored.rows; }
    }
    forall id | id in s.versions ensures Ledger(stored.rows)[id] == s.versions[id] {
      assert VersionRow(id, s.versions[id]) in stored.rows;
    }
  }

  /** Round trip: a valid state written to storage is read back unchanged. */
  lemma StoredStateReadsBack(stored: StoredState, s: SyncState)
    requires Valid(s) && Stores(stored, s)
    ensures CopyState(stored) == Done(s)
  {
    StoredLedger(stored, s);
    forall r | r in stored.rows ensures ValidVersion(r.version) {
      assert r.id in s.versions;
    }
  }

  /** Whatever can be read back at all is stored faithfully, each id once. */
  lemma ReadableStatesAreStored(stored: StoredState)
    requires CopyState(stored).Done?
    ensures Stores(stored, CopyState(stored).value)
  {
    LedgerRows(stored.rows);
  }

  // ----- The revision fence

  datatype Fence = Fence(
    expectedScope: Scope, expectedRevision: Uuid, nextRevision: Uuid, currentScope: Option<Scope>)

  datatype Fencing = Passed | Rejected(why: Diagnostic) | Misused

  function CheckFence(s: SyncState, f: Fence): Fencing {
    if f.currentScope.None? || s.scope != f.currentScope.value || s.scope != f.expectedScope then Rejected(ScopeChanged)
    else if s.revision != f.expectedRevision then Rejected(LocalRevisionChanged)
    else if f.nextRevision == s.revision then Misused
    else Passed
  }

  // ----- Requests, on their fields

  /** The request names the table's scope, twice, and its revision. */
  predicate Current(s: SyncState, f: Fence) {
    f.currentScope == Some(s.scope) && f.expectedScope == s.scope && f.expectedRevision == s.revision
  }

  /** Why a request that is not current is refused: the scope comes first. */
  function Refusal(s: SyncState, f: Fence): Diagnostic {
    if f.currentScope == Some(s.scope) && f.expectedScope == s.scope then LocalRevisionChanged else ScopeChanged
  }

  /** The fence lets exactly the current requests pass, if they propose a new revision. */
  lemma FenceExactly(s: SyncState, f: Fence)
    ensures CheckFence(s, f)
            == if !Current(s, f) then Rejected(Refusal(s, f)) else if f.nextRevision == s.revision then Misused
              else Passed
  {
  }

  function CreateState(scope: Scope, revision: Uuid): (s: SyncState)
    ensures Valid(s) && s.active == {} && s.versions == map[]
  {
    SyncState(scope, revision, Unknown, {}, {}, map[])
  }

  // ----- Staff actions

  datatype StaffAction = ManualFree | StatusChanged

  /** A staff action always rotates the fence; freeing a table suppresses the bills it has now. */
  function ReduceStaffAction(s: SyncState, f: Fence, action: StaffAction): (out: Outcome<Transition>)
    ensures Valid(s) && out.Done? ==> Valid(out.value.state)
    ensures out.Done? && out.value.changed <==>
            && Valid(s) && f.currentScope == Some(s.scope) && f.expectedScope == s.scope
            && f.expectedRevision == s.revision && f.nextRevision != s.revision
    ensures out.Done? && !out.value.changed ==> out.value.state == s
    ensures out.Done? && out.value.changed ==>
              var t := out.value.state;
              && t.revision == f.nextRevision != s.revision
              && t.scope == s.scope && t.active == s.active && t.versions == s.versions && t.last == s.last
              && forall id :: id in t.active ==> (id in t.freed <==> action == ManualFree || id in s.freed)
  {
    if !Valid(s) then Thrown
    else match CheckFence(s, f)
      case Misused => Thrown
      case Rejected(why) => Done(Transition(s, false, {why}))
      case Passed =>
        var freed := if action == ManualFree then s.active else s.freed;
        Done(Transition(s.(revision := f.nextRevision, freed := freed), true, {}))
  }

  // ----- Physical table events

  function VersionOf(s: SyncState, id: Uuid): Option<Version> {
    if id in s.versions then Some(s.versions[id]) else None
  }

  /** An old record stored a transfer away as `unknown`; re-reading the same version repairs it. */
  predicate IsLegacyTransferRepair(previous: Option<Version>, next: Option<Version>) {
    && previous.Some? && previous.value.state == Unknown && previous.value.fingerprint.Some?
    && next.Some? && next.value.state == Closed
    && previous.value.timestamp == next.value.timestamp && previous.value.fingerprint == next.value.fingerprint
  }

  const SILENCING: set<Diagnostic> := {ScopeChanged, LocalRevisionChanged, ObservationUnknown, VisibilityNotVerified}

  function StatusEvent(before: SyncState, transition: Transition): (event: Option<TableEvent>)
    ensures event == Some(Occupied) <==>
            && transition.changed && transition.diagnostics !! SILENCING
            && before.scope == transition.state.scope
            && !(transition.state.active <= before.active)
    ensures event == Some(Free) <==>
            && transition.changed && transition.diagnostics !! SILENCING
            && before.scope == transition.state.scope
            && before.active != {} && transition.state.active == {} && transition.state.last == Closed
            && exists id :: id in before.active
                 && !IsLegacyTransferRepair(VersionOf(before, id), VersionOf(transition.state, id))
  {
    var after := transition.state;
    if !transition.changed || !(transition.diagnostics !! SILENCING) then None
    else if before.scope != after.scope then None
    else if exists id :: id in after.active && id !in before.active then Some(Occupied)
    else if before.active != {} && after.active == {} && after.last == Closed then
      if exists id :: id in before.active && !IsLegacyTransferRepair(VersionOf(before, id), VersionOf(after, id))
      then Some(Free) else None
    else None
  }

  // ----- How a ledger may change

  /** One record may be replaced only by the same version (identical print, or fenced as a conflict) or
      by a newer one; in particular a conflict stays unknown until a strictly newer version. */
  predicate Supersedes(old_: Version, new_: Version) {
    && old_.timestamp <= new_.timestamp
    && (old_.timestamp == new_.timestamp ==>
          new_.fingerprint == old_.fingerprint || (new_.fingerprint.None? && new_.state == Unknown))
    && (old_.timestamp == new_.timestamp && old_.fingerprint.None? ==> new_ == old_)
  }

  ghost predicate Advances(before: map<Uuid, Version>, after: map<Uuid, Version>) {
    && before.Keys <= after.Keys
    && forall id :: id in before ==> Supersedes(before[id], after[id])
  }

  lemma SupersedesTransitive(a: Version, b: Version, c: Version)
    requires Supersedes(a, b) && Supersedes(b, c)
    requires ValidVersion(a)
    ensures Supersedes(a, c)
  {
  }
}
