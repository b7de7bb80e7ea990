/** A version on hold over whole runs: until something newer is known of it, its table is not said to be free. */
module SyrveHolds {
  import opened Basics
  import opened SyrveOrders
  import opened SyrveState
  import opened SyrveEvidence
  import opened SyrvePoll
  import opened SyrvePollTheorems
  import opened SyrvePollLaws
  import opened SyrveWebhook
  import opened SyrveNoticeLaws
  import opened SyrveSystem
  import opened SyrveFence

  /** On hold for want of a verdict: contested, or read without one. (A verdict recorded as unknown is the old form of
      a transfer, which a poll may repair.) */
  predicate Unresolved(v: Version) {
    v.state == Unknown && (v.fingerprint.None? || v.fingerprint.value.state == Unknown)
  }

  /** The ledger holds this version of the bill unresolved, or something newer. */
  ghost predicate HeldOrNewer(s: SyncState, id: Uuid, timestamp: int) {
    && id in s.versions
    && (s.versions[id].timestamp > timestamp || (s.versions[id].timestamp == timestamp && Unresolved(s.versions[id])))
  }

  lemma PollKeepsHold(v: View, id: Uuid)
    requires v.Sound() && id in v.s.versions && Unresolved(v.s.versions[id])
    requires id in v.NextVersions() && v.NextVersions()[id].timestamp == v.s.versions[id].timestamp
    ensures Unresolved(v.NextVersions()[id])
  {
  }

  lemma NoticeKeepsHold(h: Hook, s: SyncState, revision: Uuid, id: Uuid)
    requires s in h.states && !h.Stale() && h.Step(s, revision).Done?
    requires id in s.versions && Unresolved(s.versions[id])
    ensures var after := h.Step(s, revision).value.transition.state.versions;
            id in after && (after[id].timestamp == s.versions[id].timestamp ==> Unresolved(after[id]))
  {
  }

  lemma StepKeepsHold(sys: System, e: Event, i: nat, id: Uuid, timestamp: int)
    requires ValidSystem(sys) && i < |sys| && HeldOrNewer(sys[i], id, timestamp)
    ensures HeldOrNewer(Step(sys, e).next[i], id, timestamp)
  {
    assert sys[i] in sys;
    StepKeepsLedgers(sys, e, i);
    if Unresolved(sys[i].versions[id]) {
      match e
      case Poll(table, _, _, _) =>
        if table == i && ReducePoll(sys[i], PollOf(sys, e)).Done? {
          var v := PollKeepsOrWeighs(sys[i], PollOf(sys, e));
          if Step(sys, e).next[i] != sys[i]
            && Step(sys, e).next[i].versions[id].timestamp == sys[i].versions[id].timestamp {
            PollKeepsHold(v, id);
          }
        }
      case Notify(order, topology, revisions) =>
        var out, h := ReduceWebhook(sys, order, topology, revisions), Hook(sys, order, topology);
        if out.Done? && !h.Stale() {
          assert out.value[i] == h.Step(sys[i], revisions[i]).value;
          NoticeKeepsHold(h, sys[i], revisions[i], id);
        }
      case _ =>
    }
  }

  /** A table said to be free holds nothing unresolved. */
  lemma FreeMeansResolved(sys: System, e: Event, i: nat)
    requires ValidSystem(sys) && i < |sys| && Step(sys, e).emitted[i] == Some(TableEvent.Free)
    ensures NothingOnHold(Step(sys, e).next[i].versions)
  {
    assert sys[i] in sys;
    StepSpeaks(sys, e, i);
    match e
    case Poll(_, _, _, _) =>
      var id :| id in sys[i].active;
      ClosureIsAllOrNothing(sys[i], PollOf(sys, e), id);
    case Notify(order, topology, revisions) =>
      var h := Hook(sys, order, topology);
      assert ReduceWebhook(sys, order, topology, revisions).value[i] == h.Step(sys[i], revisions[i]).value;
      NoticeFreesOnlyResolved(h, sys[i], revisions[i]);
    case _ =>
  }

  lemma NoticeFreesOnlyResolved(h: Hook, s: SyncState, revision: Uuid)
    requires s in h.states && !h.Stale() && h.Step(s, revision).Done? && s.active != {}
    requires h.Step(s, revision).value.transition.state.active == {}
    ensures NothingOnHold(h.Step(s, revision).value.transition.state.versions)
  {
    var some :| some in s.active;
    assert some !in h.NextActive(s);
    assert h.Closes(s);
  }

  lemma {:induction false} HoldLasts(sys: System, events: seq<Event>, c: nat, n: nat, i: nat, id: Uuid, timestamp: int)
    requires ValidSystem(sys) && i < |sys| && c <= n <= |events|
    requires HeldOrNewer(Exec(sys, events[..c])[i], id, timestamp)
    ensures HeldOrNewer(Exec(sys, events[..n])[i], id, timestamp)
  {
    if c < n {
      HoldLasts(sys, events, c, n - 1, i, id, timestamp);
      StepAt(sys, events, n - 1);
      RunKeepsSystem(sys, events[..n - 1]);
      StepKeepsHold(Exec(sys, events[..n - 1]), events[n - 1], i, id, timestamp);
    }
  }

  /** From when a table holds a version unresolved, whatever the run, it is said to be free only by a step after which
      it knows a strictly newer version of that bill. */
  lemma HoldKeepsFromFree(sys: System, events: seq<Event>, c: nat, j: nat, i: nat, id: Uuid)
    requires ValidSystem(sys) && i < |sys| && c <= j < |events|
    requires id in Exec(sys, events[..c])[i].versions && Unresolved(Exec(sys, events[..c])[i].versions[id])
    requires Emitted(sys, events, i)[j] == Some(TableEvent.Free)
    ensures id in Exec(sys, events[..j + 1])[i].versions
    ensures Exec(sys, events[..j + 1])[i].versions[id].timestamp > Exec(sys, events[..c])[i].versions[id].timestamp
  {
    EmittedAt(sys, events, i, j);
    StepAt(sys, events, j);
    RunKeepsSystem(sys, events[..j]);
    HoldLasts(sys, events, c, j, i, id, Exec(sys, events[..c])[i].versions[id].timestamp);
    FreeIsNewer(Exec(sys, events[..j]), events[j], i, id, Exec(sys, events[..c])[i].versions[id].timestamp);
  }

  lemma FreeIsNewer(sys: System, e: Event, i: nat, id: Uuid, timestamp: int)
    requires ValidSystem(sys) && i < |sys| && HeldOrNewer(sys[i], id, timestamp)
    requires Step(sys, e).emitted[i] == Some(TableEvent.Free)
    ensures id in Step(sys, e).next[i].versions && Step(sys, e).next[i].versions[id].timestamp > timestamp
  {
    StepKeepsHold(sys, e, i, id, timestamp);
    FreeMeansResolved(sys, e, i);
  }

  /** So a bill still being created keeps every linked table from being said to be free until a newer version of it is
      known there. */
  lemma UnplacedKeepsFromFree(sys: System, events: seq<Event>, c: nat, j: nat, i: nat)
    requires ValidSystem(sys) && i < |sys| && c < j < |events| && events[c].Notify?
    requires var before, n := Exec(sys, events[..c]), events[c];
             && n.order.state == Unknown && n.order.tables == {}
             && ReduceWebhook(before, n.order, n.topology, n.revisions).Done?
             && !OutdatedBy(before, n.topology, n.order)
    requires Emitted(sys, events, i)[j] == Some(TableEvent.Free)
    ensures events[c].order.id in Exec(sys, events[..j + 1])[i].versions
    ensures Exec(sys, events[..j + 1])[i].versions[events[c].order.id].timestamp > events[c].order.timestamp
  {
    var before, n := Exec(sys, events[..c]), events[c];
    RunKeepsSystem(sys, events[..c]);
    UnplacedIsUnresolved(before, n, i);
    StepAt(sys, events, c);
    HoldKeepsFromFree(sys, events, c + 1, j, i, n.order.id);
  }

  lemma UnplacedIsUnresolved(sys: System, e: Event, i: nat)
    requires ValidSystem(sys) && i < |sys| && e.Notify? && e.order.state == Unknown && e.order.tables == {}
    requires ReduceWebhook(sys, e.order, e.topology, e.revisions).Done? && !OutdatedBy(sys, e.topology, e.order)
    ensures var versions := Step(sys, e).next[i].versions;
            e.order.id in versions && versions[e.order.id].timestamp == e.order.timestamp
            && Unresolved(versions[e.order.id])
  {
    LedgerAfterNotice(sys, e.order, e.topology, e.revisions, i);
    assert !ContestedNotice(sys, e.order, e.topology) && OnHold(sys[i], e.order) ==>
             sys[i].versions[e.order.id].fingerprint == Some(Print(e.order));
  }
}
