/** What a poll can and cannot do: closure is all-or-nothing, openings are newest, replays do nothing. */
module SyrvePollTheorems {
  import opened Basics
  import opened SyrveOrders
  import opened SyrveState
  import opened SyrveEvidence
  import opened SyrvePoll

  /** The poll that `ReducePoll` carried out, if it got as far as weighing evidence. */
  ghost predicate Weighs(s: SyncState, e: PollEvent, v: View) {
    && Valid(s) && CheckFence(s, e.fence) == Passed && EvidenceFrom(s, e.input).Evidence?
    && v == ViewOf(s, e, EvidenceFrom(s, e.input).orders)
    && ReducePoll(s, e).Done?
    && ReducePoll(s, e).value.state.active == v.NextActive()
    && ReducePoll(s, e).value.state.versions == v.NextVersions()
  }

  lemma PollKeepsOrWeighs(s: SyncState, e: PollEvent) returns (v: View)
    requires ReducePoll(s, e).Done?
    ensures ReducePoll(s, e).value.state == s || (v.Sound() && Weighs(s, e, v))
    ensures Valid(ReducePoll(s, e).value.state)
    ensures Advances(s.versions, ReducePoll(s, e).value.state.versions)
  {
    v := View(s, map[], {}, {}, false);
    if ReducePoll(s, e).value.state != s {
      v := ViewOf(s, e, EvidenceFrom(s, e.input).orders);
      ViewIsSound(s, e);
      PollKeepsValid(v);
      PollAdvances(v);
    }
  }

  // ----- Closure

  /** Exactly when a saved bill leaves: accepted evidence that it closed or moved, and nothing unresolved. */
  lemma RemovedExactly(v: View, id: Uuid)
    requires v.Sound() && id in v.s.active
    ensures id !in v.NextActive() <==>
            v.CanClose() && id in v.orders && id in v.Gone() && v.Assess(id).Accepted?
  {
  }

  /** A poll removes a bill only if visibility was verified, every saved bill has an explicit verdict,
      the resulting ledger holds no unknown, and the evidence is no older than any known version. */
  lemma ClosureIsAllOrNothing(s: SyncState, e: PollEvent, id: Uuid)
    requires ReducePoll(s, e).Done?
    requires id in s.active && id !in ReducePoll(s, e).value.state.active
    ensures e.visible && EvidenceFrom(s, e.input).Evidence?
    ensures var v := ViewOf(s, e, EvidenceFrom(s, e.input).orders);
            && (forall b :: b in s.active ==> b in v.Opened() || b in v.Gone())
            && id in v.Gone()
            && (forall r :: r in e.known && r.id == id ==> r.version.timestamp <= v.orders[id].timestamp)
            && s.versions[id].timestamp <= v.orders[id].timestamp
    ensures forall b :: b in ReducePoll(s, e).value.state.versions ==>
              ReducePoll(s, e).value.state.versions[b].state != Unknown
  {
    var v := PollKeepsOrWeighs(s, e);
    RemovedExactly(v, id);
    forall r | r in e.known && r.id == id ensures r.version.timestamp <= v.orders[id].timestamp {
      assert r.version in v.Known(id);
    }
  }

  /** One saved bill missing from the read blocks every removal on that table. */
  lemma AbsentBillBlocksEveryRemoval(s: SyncState, e: PollEvent, absent: Uuid)
    requires ReducePoll(s, e).Done? && EvidenceFrom(s, e.input).Evidence?
    requires absent in s.active && absent !in EvidenceFrom(s, e.input).orders
    ensures s.active <= ReducePoll(s, e).value.state.active
  {
  }

  // ----- Openings

  /** The ledger row an opened bill gets: an open record that lists this table. */
  ghost predicate OpensWith(version: Version, table: Uuid) {
    && version.state == Open && version.fingerprint.Some?
    && version.fingerprint.value.state == Open && table in version.fingerprint.value.tables
  }

  /** `version` is at least as new as `row`, and the same record if equally new. */
  predicate Dominates(version: Version, row: Version) {
    row.timestamp <= version.timestamp
      && (row.timestamp == version.timestamp ==> row.fingerprint == version.fingerprint)
  }

  lemma PollOpensOnlyNewest(s: SyncState, e: PollEvent, id: Uuid)
    requires ReducePoll(s, e).Done?
    requires id !in s.active && id in ReducePoll(s, e).value.state.active
    ensures var after := ReducePoll(s, e).value.state;
            && id in after.versions && OpensWith(after.versions[id], s.scope.syrveTable)
            && (id in s.versions ==> Dominates(after.versions[id], s.versions[id]))
            && (forall r :: r in e.known && r.id == id ==> Dominates(after.versions[id], r.version))
  {
    var v := PollKeepsOrWeighs(s, e);
    assert id in v.AcceptedIds() && id in v.Opened() && id !in v.Gone();
    assert id in v.Written() && id !in v.RepairIds();
    assert v.NextVersions()[id] == v.Read(id);
    forall r | r in e.known && r.id == id ensures Dominates(v.Read(id), r.version) {
      assert r.version in v.Known(id);
    }
  }

  // ----- Replays

  predicate HasRow(ledger: map<Uuid, Version>, row: VersionRow) {
    row.id in ledger && ledger[row.id] == row.version
  }

  /** `reread` is `known` as it was, or read again: some of our old rows replaced by our new ones. */
  ghost predicate RowsRefreshed(known: set<VersionRow>, reread: set<VersionRow>,
                                before: map<Uuid, Version>, after: map<Uuid, Version>) {
    && (forall r :: r in reread ==> r in known || HasRow(after, r))
    && (forall r :: r in known ==> r in reread || HasRow(before, r))
  }

  ghost predicate Replays(v: View, again: View) {
    && v.Sound()
    && again.s == v.Next().(revision := again.s.revision)
    && again.orders == v.orders && again.departed == v.departed && again.visible == v.visible
    && RowsRefreshed(v.known, again.known, v.s.versions, v.NextVersions())
  }

  lemma ReplayKnows(v: View, again: View, id: Uuid)
    requires Replays(v, again) && id in v.orders
    ensures forall k :: k in again.Known(id) ==>
              k in v.Known(id) || (id in v.NextVersions() && k == v.NextVersions()[id])
    ensures forall k :: k in v.Known(id) ==> k in again.Known(id) || (id in v.s.versions && k == v.s.versions[id])
  {
  }

  lemma ReplaySees(v: View, again: View, id: Uuid)
    requires Replays(v, again) && id in v.orders
    ensures again.Opened() == v.Opened() && again.Gone() == v.Gone()
    ensures id in again.Candidates() <==> id in v.Candidates()
    ensures again.EvidenceState(id) == v.EvidenceState(id)
  {
  }

  /** How each bill of the read is judged the second time. */
  lemma ReplayAssesses(v: View, again: View, id: Uuid)
    requires Replays(v, again) && id in v.Candidates()
    ensures v.Assess(id).Ignored? || v.Assess(id).Conflict? ==> again.Assess(id) == v.Assess(id)
    ensures v.Assess(id) == Accepted(true) ==> again.Assess(id) == Accepted(!v.CanClose())
    ensures v.Assess(id) == Accepted(false) ==>
              again.Assess(id) == if v.EvidenceState(id) == Unknown then Ignored(false) else Accepted(false)
    ensures id in v.Written() ==> again.Rewrite(id) == v.Rewrite(id)
  {
    ReplaySees(v, again, id);
    ReplayKnows(v, again, id);
    assert again.Read(id) == v.Read(id);
    if v.Stale(id) {
      assert id in v.s.versions ==> v.NextVersions()[id] == v.s.versions[id];
      assert again.Stale(id);
    } else if v.Clashes(id) {
      assert v.NextVersions()[id] == Version(v.orders[id].timestamp, Unknown, None);
      assert !again.Stale(id) && again.Clashes(id);
    } else if v.Assess(id) == Ignored(false) {
      assert v.NextVersions()[id] == v.s.versions[id];
      assert !again.Stale(id) && !again.Clashes(id);
    } else {
      assert v.NextVersions()[id] == if v.Assess(id).repair && !v.CanClose() then v.s.versions[id] else v.Read(id);
      assert !again.Stale(id) && !again.Clashes(id);
    }
  }

  lemma ReplayProspect(v: View, again: View)
    requires Replays(v, again)
    ensures again.Prospect() == v.Prospect()
    ensures again.UnknownSeen() <==> v.UnknownSeen()
    ensures again.CanClose() <==> v.CanClose()
  {
    forall id | id in v.orders
      ensures id in again.Candidates() <==> id in v.Candidates()
      ensures again.Opened() == v.Opened() && again.Gone() == v.Gone()
    {
      ReplaySees(v, again, id);
    }
    assert again.Opened() == v.Opened() && again.Gone() == v.Gone();
    assert forall id :: id in v.orders && id in v.Candidates() ==> id in again.Candidates();
    assert v.NextVersions().Keys == v.Prospect().Keys;
    forall id
      ensures id in again.Prospect() <==> id in v.Prospect()
      ensures id in v.Prospect() ==> again.Prospect()[id] == v.Prospect()[id]
    {
      if id in v.Candidates() {
        ReplayAssesses(v, again, id);
      } else {
        assert id !in again.Candidates();
      }
    }
    assert again.UnknownSeen() <==> v.UnknownSeen() by {
      forall id
        ensures (id in again.s.active && id !in again.Opened() && id !in again.Gone())
           <==> (id in v.s.active && id !in v.Opened() && id !in v.Gone())
      {
      }
    }
  }

  /** Once applied, a view applied again changes nothing. */
  lemma ReplayChangesNothing(v: View, again: View)
    requires Replays(v, again)
    ensures again.Next() == again.s
  {
    ReplayProspect(v, again);
    forall id | id in v.orders ensures again.Opened() == v.Opened() && again.Gone() == v.Gone() {
      ReplaySees(v, again, id);
    }
    forall id | id in v.Candidates()
      ensures id in again.AcceptedIds() ==> id in v.AcceptedIds()
      ensures id in again.RepairIds() ==> id in v.RepairIds() && !v.CanClose()
      ensures id in v.RepairIds() && !v.CanClose() ==> id in again.RepairIds()
    {
      ReplaySees(v, again, id);
      ReplayAssesses(v, again, id);
    }
    assert forall id :: id in again.Candidates() ==> id in v.Candidates() by {
      forall id | id in again.Candidates() ensures id in v.Candidates() { ReplaySees(v, again, id); }
    }
    assert again.NextActive() == v.NextActive();
    assert again.NextVersions() == v.NextVersions();
    assert again.s.freed !! again.Removed();
  }

  // ----- Reading the same pages again

  lemma PageReplays(s: SyncState, again: SyncState, planned: set<Uuid>, replanned: set<Uuid>, batch: Batch,
                    rebatch: Batch, paged: bool)
    requires again.scope == s.scope && rebatch.probe == batch.probe
    requires paged ==> rebatch == batch
    requires |rebatch.orderIds| <= MAX_RESPONSE_ORDERS
    requires ReadPage(s, planned, batch, paged).PageSeen?
    ensures var reread := ReadPage(again, replanned, rebatch, paged);
            reread.PageRefused? || reread == ReadPage(s, planned, batch, paged)
  {
  }

  /** Pages that are the same, or now refused, gather to the same reading, or to none. */
  lemma {:induction false} GatherReplays(pages: seq<Page>, repages: seq<Page>, n: nat)
    requires n <= |pages| == |repages| && Gather(pages, n).Read?
    requires forall i :: 0 <= i < n ==> repages[i].PageRefused? || repages[i] == pages[i]
    ensures Gather(repages, n).Refused? || Gather(repages, n) == Gather(pages, n)
  {
    if n > 0 { GatherReplays(pages, repages, n - 1); }
  }

  /** The same input read against the state it produced is the same evidence, or none at all. */
  lemma EvidenceReplays(s: SyncState, again: SyncState, input: ProbeInput)
    requires again.scope == s.scope && EvidenceFrom(s, input).Evidence?
    ensures EvidenceFrom(again, input) == NoEvidence || EvidenceFrom(again, input) == EvidenceFrom(s, input)
  {
    if |Batches(again, input)| == |Plan(again)| {
      var pages, repages, n := PagesFrom(s, input), PagesFrom(again, input), |Plan(s)|;
      GatheredPages(pages, n);
      if !input.Paged? { PagesAreBounded(Sorted(IdsToObserve(again))); }
      forall i | 0 <= i < n ensures repages[i].PageRefused? || repages[i] == pages[i] {
        PageAt(s, input, i);
        PageAt(again, input, i);
        PageReplays(s, again, Plan(s)[i], Plan(again)[i], Batches(s, input)[i], Batches(again, input)[i], input.Paged?);
      }
      GatherReplays(pages, repages, n);
    }
  }

  lemma WeighedPollReplays(s: SyncState, e: PollEvent, replay: PollEvent, v: View)
    requires Weighs(s, e, v) && v.Sound() && replay.input == e.input && replay.visible == e.visible
    requires v.s == s && ReducePoll(s, e).value.state == v.Next().(revision := ReducePoll(s, e).value.state.revision)
    requires !(exists p :: p in Probes(e.input) && p.organization != s.scope.organization)
    requires forall r :: r in e.known ==> SafeTimestamp(r.version.timestamp)
    requires CheckFence(ReducePoll(s, e).value.state, replay.fence) == Passed
    requires RowsRefreshed(e.known, replay.known, s.versions, v.NextVersions())
    ensures var after := ReducePoll(s, e).value.state;
            ReducePoll(after, replay).Done? && ReducePoll(after, replay).value.state == after
              && !ReducePoll(after, replay).value.changed
  {
    var after := ReducePoll(s, e).value.state;
    var _ := PollKeepsOrWeighs(s, e);
    EvidenceReplays(s, after, e.input);
    var again := ViewOf(after, replay, v.orders);
    assert Replays(v, again);
    ReplayChangesNothing(v, again);
    forall r | r in replay.known ensures SafeTimestamp(r.version.timestamp) {
      assert HasRow(after.versions, r) ==> ValidVersion(after.versions[r.id]);
    }
  }

  /** Idempotence: applying the same poll again under a refreshed fence changes nothing, reports no
      change and emits no event, whatever mix of stale, conflicting, departed and repaired bills it
      holds, and whether or not the rows known elsewhere were read again in between. */
  lemma ReplayedPollIsNoOp(s: SyncState, e: PollEvent, replay: PollEvent)
    requires ReducePoll(s, e).Done? && CheckFence(s, e.fence) == Passed
    requires replay.input == e.input && replay.visible == e.visible
    requires CheckFence(ReducePoll(s, e).value.state, replay.fence) == Passed
    requires RowsRefreshed(e.known, replay.known, s.versions, ReducePoll(s, e).value.state.versions)
    ensures var after := ReducePoll(s, e).value.state;
            && ReducePoll(after, replay).Done?
            && ReducePoll(after, replay).value.state == after
            && !ReducePoll(after, replay).value.changed
            && StatusEvent(after, ReducePoll(after, replay).value) == None
  {
    if EvidenceFrom(s, e.input).Evidence?
      && !(exists p :: p in Probes(e.input) && p.organization != s.scope.organization)
    {
      ViewIsSound(s, e);
      WeighedPollReplays(s, e, replay, ViewOf(s, e, EvidenceFrom(s, e.input).orders));
    }
  }
}
