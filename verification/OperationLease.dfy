/** The renewable lease that keeps one running provider operation per owner. Each statement is one step under
    its own clock reading; statements of different calls interleave freely. */
module OperationLease {
  import opened Basics

  const LEASE_MS: int := 60_000
  const BUDGET_MS: int := 30 * 60_000
  const RETENTION_MS: int := 24 * 60 * 60_000

  datatype Status = Running | Done | Failed

  /** `result` stands for the stored result of a done row; every other row stores none. */
  datatype Row = Row(
    owner: nat, runner: nat, status: Status, expiresAt: int, liveUntil: int, completedAt: Option<int>,
    result: Option<nat>)

  type Rows = map<nat, Row>

  predicate Live(row: Row, now: int) {
    row.status == Running && row.liveUntil > now && row.expiresAt > now
  }

  /** The guard's query: this operation, of this owner, on this runner, still live. */
  predicate Guarded(rows: Rows, id: nat, owner: nat, runner: nat, now: int) {
    id in rows && rows[id].owner == owner && rows[id].runner == runner && Live(rows[id], now)
  }

  predicate Lapsed(row: Row, now: int) {
    row.status == Running && (row.liveUntil <= now || row.expiresAt <= now)
  }

  predicate Forgotten(row: Row, now: int) {
    row.status != Running && row.completedAt.Some? && row.completedAt.value < now - RETENTION_MS
  }

  function Interrupt(row: Row, now: int): Row {
    row.(status := Failed, completedAt := Some(now), result := None)
  }

  // ----- The statements

  /** The rows, and every id ever inserted: ids are random and never drawn twice. */
  datatype Table = Table(rows: Rows, used: set<nat>)

  /** A statement for one owner, or, from the scheduler, for all. */
  datatype Event =
    | Expire(whose: Option<nat>, now: int)
    | Forget(whose: Option<nat>, now: int)
    | Insert(owner: nat, runner: nat, id: nat, now: int)
    | Renew(id: nat, owner: nat, runner: nat, now: int)
    | Finish(id: nat, owner: nat, runner: nat, outcome: Option<nat>, now: int)

  predicate Concerns(owner: Option<nat>, row: Row) { owner.None? || owner.value == row.owner }

  predicate HasRunning(rows: Rows, owner: nat) {
    exists k :: k in rows && rows[k].owner == owner && rows[k].status == Running
  }

  function Apply(t: Table, e: Event): Table {
    match e
    case Expire(owner, now) =>
      t.(rows := map id | id in t.rows ::
         if Concerns(owner, t.rows[id]) && Lapsed(t.rows[id], now) then Interrupt(t.rows[id], now) else t.rows[id])
    case Forget(owner, now) =>
      t.(rows := map id | id in t.rows && !(Concerns(owner, t.rows[id]) && Forgotten(t.rows[id], now)) :: t.rows[id])
    case Insert(owner, runner, id, now) =>
      if id in t.used || HasRunning(t.rows, owner) then t
      else Table(t.rows[id := Row(owner, runner, Running, now + BUDGET_MS, now + LEASE_MS, None, None)], t.used + {id})
    case Renew(id, owner, runner, now) =>
      if !Guarded(t.rows, id, owner, runner, now) then t
      else t.(rows := t.rows[id := t.rows[id].(liveUntil := Min(t.rows[id].expiresAt, now + LEASE_MS))])
    case Finish(id, owner, runner, outcome, now) =>
      if !Guarded(t.rows, id, owner, runner, now) then t
      else
        t.(rows := t.rows[id := t.rows[id].(status := if outcome.Some? then Done else Failed,
                                            completedAt := Some(now), result := outcome)])
  }

  function Exec(events: seq<Event>): Table {
    if events == [] then Table(map[], {}) else Apply(Exec(events[..|events| - 1]), events[|events| - 1])
  }

  // ----- What every statement keeps

  /** The unique index: at most one running row per owner. Finished rows say when they ended, and only done
      rows hold a result. */
  ghost predicate Consistent(t: Table) {
    && t.rows.Keys <= t.used
    && (forall a, b ::
        a in t.rows && b in t.rows && a != b && t.rows[a].status == Running && t.rows[b].status == Running ==>
          t.rows[a].owner != t.rows[b].owner)
    && (forall id :: id in t.rows ==> (t.rows[id].status == Running <==> t.rows[id].completedAt.None?))
    && (forall id :: id in t.rows && t.rows[id].status != Done ==> t.rows[id].result.None?)
  }

  lemma ApplyKeepsConsistent(t: Table, e: Event)
    requires Consistent(t)
    ensures Consistent(Apply(t, e)) && t.used <= Apply(t, e).used
  {
  }

  lemma {:induction false} RunsAreConsistent(events: seq<Event>)
    ensures Consistent(Exec(events))
  {
    if events != [] {
      RunsAreConsistent(events[..|events| - 1]);
      ApplyKeepsConsistent(Exec(events[..|events| - 1]), events[|events| - 1]);
    }
  }

  /** A row that is over, for whoever looks at this instant or later. */
  ghost predicate OverSince(t: Table, id: nat, instant: int) {
    id in t.used && (id in t.rows ==> t.rows[id].status != Done && !Live(t.rows[id], instant))
  }

  lemma ApplyKeepsOver(t: Table, e: Event, id: nat, instant: int)
    requires OverSince(t, id, instant) && instant <= e.now
    ensures OverSince(Apply(t, e), id, instant)
  {
  }

  lemma ApplyKeepsFinished(t: Table, e: Event, id: nat)
    requires id in t.used && (id in t.rows ==> t.rows[id].status != Running)
    ensures id in Apply(t, e).used
    ensures id in Apply(t, e).rows ==> id in t.rows && Apply(t, e).rows[id] == t.rows[id]
  {
  }

  // ----- Whole runs

  /** Mutual exclusion: after any run, at any instant, at most one operation of an owner passes its guard. */
  lemma OneGuardPerOwner(events: seq<Event>, a: nat, b: nat, owner: nat, r1: nat, r2: nat, now: int)
    requires Guarded(Exec(events).rows, a, owner, r1, now) && Guarded(Exec(events).rows, b, owner, r2, now)
    ensures a == b && r1 == r2
  {
    RunsAreConsistent(events);
  }

  /** Once lapsed, an operation is over in every later state: it never passes its guard at a later time, hence is
      never renewed and never stores `done`. */
  lemma {:induction false} LapsedForGood(events: seq<Event>, i: nat, id: nat, instant: int, owner: nat, runner: nat,
                                         now: int)
    requires i <= |events| && OverSince(Exec(events[..i]), id, instant)
    requires forall k :: i <= k < |events| ==> instant <= events[k].now
    requires instant <= now
    ensures OverSince(Exec(events), id, instant)
    ensures !Guarded(Exec(events).rows, id, owner, runner, now)
    ensures id in Exec(events).rows ==> Exec(events).rows[id].status != Done
  {
    if i == |events| {
      assert events[..i] == events;
    } else {
      var n := |events| - 1;
      assert events[..n][..i] == events[..i];
      LapsedForGood(events[..n], i, id, instant, owner, runner, now);
      ApplyKeepsOver(Exec(events[..n]), events[n], id, instant);
    }
  }

  /** A finished row keeps its outcome for as long as it is kept at all. */
  lemma {:induction false} FinishedForGood(events: seq<Event>, i: nat, id: nat)
    requires i <= |events| && id in Exec(events[..i]).used
    requires id in Exec(events[..i]).rows ==> Exec(events[..i]).rows[id].status != Running
    ensures id in Exec(events).used
    ensures id in Exec(events).rows ==>
              id in Exec(events[..i]).rows && Exec(events).rows[id] == Exec(events[..i]).rows[id]
  {
    if i == |events| {
      assert events[..i] == events;
    } else {
      var n := |events| - 1;
      assert events[..n][..i] == events[..i];
      FinishedForGood(events[..n], i, id);
      ApplyKeepsFinished(Exec(events[..n]), events[n], id);
    }
  }

  // ----- The service

  predicate HasLive(rows: Rows, owner: nat, now: int) {
    exists k :: k in rows && rows[k].owner == owner && Live(rows[k], now)
  }

  /** What a start does before it inserts. */
  function Swept(t: Table, owner: nat, expireAt: int, forgetAt: int): Table {
    Apply(Apply(t, Expire(Some(owner), expireAt)), Forget(Some(owner), forgetAt))
  }

  lemma SweptHasOnlyLive(t: Table, owner: nat, expireAt: int, forgetAt: int)
    ensures HasRunning(Swept(t, owner, expireAt, forgetAt).rows, owner) <==> HasLive(t.rows, owner, expireAt)
  {
    var swept := Swept(t, owner, expireAt, forgetAt).rows;
    forall k | k in t.rows && t.rows[k].owner == owner
      ensures Live(t.rows[k], expireAt) <==> k in swept && swept[k].status == Running
    {
    }
  }

  class SyrveOperations {
    var rows: Rows
    ghost var used: set<nat>

    ghost function State(): Table
      reads this
    {
      Table(rows, used)
    }

    ghost predicate Valid()
      reads this
    {
      Consistent(State())
    }

    constructor ()
      ensures Valid() && State() == Exec([])
    {
      rows, used := map[], {};
    }

    method ExpireRows(owner: Option<nat>, now: int)
      requires Valid()
      modifies `rows
      ensures Valid() && State() == Apply(old(State()), Expire(owner, now))
      ensures forall id :: id in rows && Concerns(owner, rows[id]) ==> !Lapsed(rows[id], now)
    {
      ApplyKeepsConsistent(State(), Expire(owner, now));
      rows := map id | id in rows ::
        if Concerns(owner, rows[id]) && Lapsed(rows[id], now) then Interrupt(rows[id], now) else rows[id];
    }

    method ForgetRows(owner: Option<nat>, now: int)
      requires Valid()
      modifies `rows
      ensures Valid() && State() == Apply(old(State()), Forget(owner, now))
      ensures forall id :: id in old(rows) && id !in rows ==> old(rows)[id].status != Running
    {
      ApplyKeepsConsistent(State(), Forget(owner, now));
      rows := map id | id in rows && !(Concerns(owner, rows[id]) && Forgotten(rows[id], now)) :: rows[id];
    }

    /** Refused by the unique index while the owner has a running row. */
    method InsertRow(owner: nat, runner: nat, id: nat, now: int) returns (inserted: bool)
      requires Valid() && id !in used
      modifies this
      ensures Valid() && State() == Apply(old(State()), Insert(owner, runner, id, now))
      ensures inserted <==> !HasRunning(old(rows), owner)
      ensures inserted ==> id in rows && rows[id].expiresAt == now + BUDGET_MS && rows[id].liveUntil == now + LEASE_MS
                           && Guarded(rows, id, owner, runner, now)
      ensures !inserted ==> used == old(used)
    {
      ApplyKeepsConsistent(State(), Insert(owner, runner, id, now));
      if HasRunning(rows, owner) { return false; }
      rows := rows[id := Row(owner, runner, Running, now + BUDGET_MS, now + LEASE_MS, None, None)];
      used := used + {id};
      return true;
    }

    /** Expires the owner's lapsed operation, drops old finished ones, then inserts. It starts iff the owner had no
        live operation; the new one is leased for a minute within half an hour. */
    method Start(owner: nat, runner: nat, id: nat, expireAt: int, forgetAt: int, insertAt: int) returns (started: bool)
      requires Valid() && id !in used
      modifies this
      ensures Valid()
      ensures State() == Apply(Swept(old(State()), owner, expireAt, forgetAt), Insert(owner, runner, id, insertAt))
      ensures started <==> !HasLive(old(rows), owner, expireAt)
      ensures started ==>
                id in rows && rows[id].expiresAt == insertAt + BUDGET_MS && rows[id].liveUntil == insertAt + LEASE_MS
                          && Guarded(rows, id, owner, runner, insertAt)
      ensures !started ==> used == old(used)
    {
      SweptHasOnlyLive(State(), owner, expireAt, forgetAt);
      ExpireRows(Some(owner), expireAt);
      ForgetRows(Some(owner), forgetAt);
      started := InsertRow(owner, runner, id, insertAt);
    }

    /** Passing means nobody else can: no other operation of the owner, and this one on no other runner, passes
        at this instant, and a renewal or an outcome stored at it would be accepted. */
    method Guard(id: nat, owner: nat, runner: nat, now: int) returns (passes: bool)
      requires Valid()
      ensures passes ==> forall k, r :: Guarded(rows, k, owner, r, now) ==> k == id && r == runner
      ensures passes ==> forall k :: k in rows && rows[k].owner == owner && k != id ==> rows[k].status != Running
      ensures passes <==> forall outcome :: Apply(State(), Finish(id, owner, runner, outcome, now)) != State()
    {
      passes := id in rows && rows[id].owner == owner && rows[id].runner == runner
                && rows[id].status == Running && rows[id].liveUntil > now && rows[id].expiresAt > now;
      forall outcome | passes ensures Apply(State(), Finish(id, owner, runner, outcome, now)) != State() {
        assert Apply(State(), Finish(id, owner, runner, outcome, now)).rows[id].status != Running;
      }
      assert !passes ==> Apply(State(), Finish(id, owner, runner, None, now)) == State();
    }

    method RenewLease(id: nat, owner: nat, runner: nat, now: int) returns (renewed: bool)
      requires Valid()
      modifies `rows
      ensures Valid() && State() == Apply(old(State()), Renew(id, owner, runner, now))
      ensures renewed <==> Guarded(old(rows), id, owner, runner, now)
      ensures renewed ==>
                rows[id].liveUntil <= rows[id].expiresAt == old(rows)[id].expiresAt
                  && Guarded(rows, id, owner, runner, now)
    {
      ApplyKeepsConsistent(State(), Renew(id, owner, runner, now));
      if !Guarded(rows, id, owner, runner, now) { return false; }
      rows := rows[id := rows[id].(liveUntil := Min(rows[id].expiresAt, now + LEASE_MS))];
      return true;
    }

    /** Stores the outcome only while the lease still holds: no false success after a lapse. */
    method FinishOperation(id: nat, owner: nat, runner: nat, outcome: Option<nat>, now: int) returns (stored: bool)
      requires Valid()
      modifies `rows
      ensures Valid() && State() == Apply(old(State()), Finish(id, owner, runner, outcome, now))
      ensures stored <==> Guarded(old(rows), id, owner, runner, now)
      ensures stored ==> rows[id].status == (if outcome.Some? then Done else Failed) && rows[id].result == outcome
    {
      ApplyKeepsConsistent(State(), Finish(id, owner, runner, outcome, now));
      if !Guarded(rows, id, owner, runner, now) { return false; }
      rows := rows[id := rows[id].(status := if outcome.Some? then Done else Failed,
                                   completedAt := Some(now), result := outcome)];
      return true;
    }

    method CleanupRetention(expireAt: int, forgetAt: int)
      requires Valid()
      modifies `rows
      ensures Valid() && State() == Apply(Apply(old(State()), Expire(None, expireAt)), Forget(None, forgetAt))
      ensures forall id :: id in rows ==> !Lapsed(rows[id], expireAt) && !Forgotten(rows[id], forgetAt)
    {
      ExpireRows(None, expireAt);
      ForgetRows(None, forgetAt);
    }

    /** A read first expires, so it never shows a lapsed operation as running. */
    method Read(id: nat, owner: nat, now: int) returns (row: Option<Row>)
      requires Valid()
      modifies `rows
      ensures Valid() && State() == Apply(old(State()), Expire(Some(owner), now))
      ensures row.Some? <==> id in rows && rows[id].owner == owner
      ensures row.Some? ==> row.value == rows[id] && (row.value.status == Running ==> Live(row.value, now))
    {
      ExpireRows(Some(owner), now);
      row := if id in rows && rows[id].owner == owner then Some(rows[id]) else None;
    }
  }
}
