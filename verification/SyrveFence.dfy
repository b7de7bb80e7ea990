/** The revision fence over whole runs: once a table has changed, nothing captured before changes it again. */
module SyrveFence {
  import opened Basics
  import opened SyrveOrders
  import opened SyrveState
  import opened SyrveEvidence
  import opened SyrvePoll
  import opened SyrveWebhook
  import opened SyrveSystem

  // ----- One request

  /** A staff action takes effect exactly when it is current; it throws only if it proposes no new revision. */
  lemma StaffActionExactly(s: SyncState, f: Fence, action: StaffAction)
    requires Valid(s)
    ensures !Current(s, f) ==> ReduceStaffAction(s, f, action) == Done(Transition(s, false, {Refusal(s, f)}))
    ensures Current(s, f) && f.nextRevision == s.revision ==> ReduceStaffAction(s, f, action) == Thrown
    ensures Current(s, f) && f.nextRevision != s.revision ==>
              && ReduceStaffAction(s, f, action).Done?
              && ReduceStaffAction(s, f, action).value.changed
              && ReduceStaffAction(s, f, action).value.diagnostics == {}
  {
  }

  /** A poll that is not current leaves the state as it was, says why, and emits nothing. */
  lemma LatePollIsRefused(s: SyncState, e: PollEvent)
    requires Valid(s) && !Current(s, e.fence)
    ensures ReducePoll(s, e) == Done(Transition(s, false, {Refusal(s, e.fence)}))
    ensures StatusEvent(s, ReducePoll(s, e).value) == None
  {
  }

  /** The fence a poll or a staff action on the table carries. */
  function FenceOn(e: Event, i: nat): Option<Fence> {
    match e
    case Poll(table, fence, _, _) => if table == i then Some(fence) else None
    case Staff(table, fence, _) => if table == i then Some(fence) else None
    case _ => None
  }

  /** Captured at another revision, it changes no table and says nothing. */
  lemma LateRequestIsRefused(sys: System, e: Event, i: nat)
    requires ValidSystem(sys) && i < |sys| && FenceOn(e, i).Some?
    requires FenceOn(e, i).value.expectedRevision != sys[i].revision
    ensures Step(sys, e) == StepResult(sys, Silence(|sys|))
  {
    assert sys[i] in sys;
    if e.Poll? { LatePollIsRefused(sys[i], PollOf(sys, e)); }
  }

  // ----- Runs with fresh revisions

  /** The revision an event would give the table, if it changed it. */
  function Proposed(e: Event, i: nat): Option<Uuid> {
    match e
    case Poll(table, fence, _, _) => if table == i then Some(fence.nextRevision) else None
    case Notify(_, _, revisions) => if i < |revisions| then Some(revisions[i]) else None
    case Staff(table, fence, _) => if table == i then Some(fence.nextRevision) else None
    case Adopt(table, _, revision) => if table == i then Some(revision) else None
  }

  /** Every change of a table gives it the proposed revision. */
  lemma ChangeRotates(sys: System, e: Event, i: nat)
    requires ValidSystem(sys) && i < |sys|
    ensures Step(sys, e).next[i] == sys[i] || Proposed(e, i) == Some(Step(sys, e).next[i].revision)
  {
    assert sys[i] in sys;
    match e
    case Poll(table, _, _, _) =>
    case Notify(order, topology, revisions) =>
      var out, h := ReduceWebhook(sys, order, topology, revisions), Hook(sys, order, topology);
      if out.Done? && !h.Stale() { assert out.value[i] == h.Step(sys[i], revisions[i]).value; }
    case _ =>
  }

  /** No event proposes a revision the table has had so far: they are drawn at random. */
  ghost predicate FreshRevisions(sys: System, events: seq<Event>, i: nat)
    requires i < |sys|
  {
    forall m, k :: 0 <= m <= k < |events| ==> Proposed(events[k], i) != Some(Exec(sys, events[..m])[i].revision)
  }

  lemma StepAt(sys: System, events: seq<Event>, k: nat)
    requires k < |events|
    ensures Exec(sys, events[..k + 1]) == Step(Exec(sys, events[..k]), events[k]).next
  {
    assert events[..k + 1][..k] == events[..k];
  }

  lemma ChangeIsFresh(sys: System, events: seq<Event>, i: nat, c: nat, k: nat)
    requires ValidSystem(sys) && i < |sys| && FreshRevisions(sys, events, i) && c <= k < |events|
    requires Exec(sys, events[..k + 1])[i] != Exec(sys, events[..k])[i]
    ensures Exec(sys, events[..k + 1])[i].revision != Exec(sys, events[..c])[i].revision
  {
    StepAt(sys, events, k);
    RunKeepsSystem(sys, events[..k]);
    ChangeRotates(Exec(sys, events[..k]), events[k], i);
  }

  /** The states of the table before the first step and after each one. */
  ghost function History(sys: System, events: seq<Event>, i: nat): (states: seq<SyncState>)
    requires i < |sys|
    ensures |states| == |events| + 1
    ensures forall k :: 0 <= k <= |events| ==> states[k] == Exec(sys, events[..k])[i]
  {
    seq(|events| + 1, k requires 0 <= k <= |events| => Exec(sys, events[..k])[i])
  }

  /** Every change gives a revision not had before. */
  ghost predicate Rotates(states: seq<SyncState>) {
    forall c, k :: 0 <= c <= k && k + 1 < |states| && states[k + 1] != states[k] ==>
      states[k + 1].revision != states[c].revision
  }

  /** A revision once left is never had again. */
  lemma {:induction false} RevisionIsGone(states: seq<SyncState>, c: nat, k: nat, n: nat)
    requires Rotates(states) && c <= k < n < |states| && states[k + 1] != states[k]
    ensures states[n].revision != states[c].revision
  {
    if n > k + 1 && states[n] == states[n - 1] { RevisionIsGone(states, c, k, n - 1); }
  }

  lemma FreshRunRotates(sys: System, events: seq<Event>, i: nat)
    requires ValidSystem(sys) && i < |sys| && FreshRevisions(sys, events, i)
    ensures Rotates(History(sys, events, i))
  {
    var states := History(sys, events, i);
    forall c, k | 0 <= c <= k && k + 1 < |states| && states[k + 1] != states[k]
      ensures states[k + 1].revision != states[c].revision
    {
      ChangeIsFresh(sys, events, i, c, k);
    }
  }

  /** Once some step has changed the table, a poll or a staff action captured before it, at whatever revision the
      table then had, changes nothing and says nothing, however many steps later it arrives. */
  lemma NothingCapturedBeforeCounts(sys: System, events: seq<Event>, i: nat, c: nat, k: nat, e: Event)
    requires ValidSystem(sys) && i < |sys| && FreshRevisions(sys, events, i) && c <= k < |events|
    requires Exec(sys, events[..k + 1])[i] != Exec(sys, events[..k])[i]
    requires FenceOn(e, i).Some? && FenceOn(e, i).value.expectedRevision == Exec(sys, events[..c])[i].revision
    ensures Step(Exec(sys, events), e) == StepResult(Exec(sys, events), Silence(|sys|))
  {
    assert events[..|events|] == events;
    FreshRunRotates(sys, events, i);
    RevisionIsGone(History(sys, events, i), c, k, |events|);
    RunKeepsSystem(sys, events);
    LateRequestIsRefused(Exec(sys, events), e, i);
  }

  // ----- What each event does to the tables

  /** The versions a poll is given: those that the tables of its integration and organization hold of the bills read. */
  lemma KnownExactly(sys: System, ids: set<Uuid>, scope: Scope, row: VersionRow)
    ensures row in KnownRows(sys, ids, scope) <==>
            row.id in ids
            && exists i :: 0 <= i < |sys| && sys[i].scope.integration == scope.integration
                           && sys[i].scope.organization == scope.organization
                           && row.id in sys[i].versions && sys[i].versions[row.id] == row.version
  {
    if i :| 0 <= i < |sys| && sys[i].scope.integration == scope.integration
            && sys[i].scope.organization == scope.organization
            && row.id in sys[i].versions && sys[i].versions[row.id] == row.version {
      assert sys[i] in sys && Shares(sys[i].scope, scope);
    }
  }

  /** A poll of a table that is there gives it the state the reducer says, and what the table says of it; all other
      tables stay and are silent. */
  lemma PollStep(sys: System, e: Event, i: nat)
    requires e.Poll? && e.table < |sys| && i < |sys|
    ensures var out := ReducePoll(sys[e.table], PollOf(sys, e));
            && Step(sys, e).next[i] == (if i == e.table && out.Done? then out.value.state else sys[i])
            && Step(sys, e).emitted[i]
               == if i == e.table && out.Done? then StatusEvent(sys[i], out.value) else None
  {
  }

  /** A notification gives every table the state the reducer says and what it says of it, or, thrown, changes none. */
  lemma NoticeStep(sys: System, e: Event, i: nat)
    requires e.Notify? && i < |sys|
    ensures var out := ReduceWebhook(sys, e.order, e.topology, e.revisions);
            && Step(sys, e).next[i] == (if out.Done? then out.value[i].transition.state else sys[i])
            && Step(sys, e).emitted[i] == if out.Done? then out.value[i].status else None
  {
  }

  /** A current staff action frees its table by hand or only rotates its revision; nothing is ever said of it. */
  lemma StaffStep(sys: System, e: Event, i: nat)
    requires ValidSystem(sys) && e.Staff? && e.table < |sys| && i < |sys|
    ensures Step(sys, e).emitted[i] == None
    ensures Step(sys, e).next[i]
            == if i == e.table && Current(sys[i], e.staffFence) && e.staffFence.nextRevision != sys[i].revision
               then sys[i].(revision := e.staffFence.nextRevision,
                            freed := if e.action == ManualFree then sys[i].active else sys[i].freed)
               else sys[i]
  {
    assert sys[i] in sys;
  }

  /** An adoption gives its table the configuration and a new revision, unless it has that configuration already. */
  lemma AdoptStep(sys: System, e: Event, i: nat)
    requires e.Adopt? && e.table < |sys| && i < |sys|
    ensures Step(sys, e).emitted[i] == None
    ensures Step(sys, e).next[i]
            == if i == e.table && sys[i].scope.configurationRevision != e.configurationRevision
               then sys[i].(scope := sys[i].scope.(configurationRevision := e.configurationRevision),
                            revision := e.revision)
               else sys[i]
  {
  }
}
