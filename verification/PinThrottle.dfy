/** The durable PIN throttle: reserve before checking, then fail, release or clear; any interleaving. */
module PinThrottle {
  import opened Basics

  const MAX_FAILED: nat := 5
  const WINDOW_MS: int := 15 * 60 * 1000
  const LOCK_MS: int := 15 * 60 * 1000
  const PENDING_RETENTION_MS: int := WINDOW_MS + 5 * 60 * 1000

  datatype PinScope = PinLogin | TelegramLink

  /** A scope with the injective hash of what is being guessed. */
  datatype Subject = Subject(scope: PinScope, hash: nat)

  datatype Status = Pending | Failed

  datatype Row = Row(subject: Subject, status: Status, reservedAt: int, failedAt: Option<int>, lockedUntil: Option<int>)

  datatype Reservation = Reserved(id: nat) | Locked(until: int) | Busy

  type Rows = map<nat, Row>

  // ----- Queries

  predicate LockedNow(row: Row, subject: Subject, now: int) {
    row.subject == subject && row.lockedUntil.Some? && row.lockedUntil.value > now
  }

  predicate CountsNow(row: Row, subject: Subject, now: int) {
    row.subject == subject &&
    match row.status
    case Pending => row.reservedAt >= now - WINDOW_MS
    case Failed => row.failedAt.Some? && row.failedAt.value >= now - WINDOW_MS
  }

  /** The attempts of a subject that still count against it. */
  function Counted(rows: Rows, subject: Subject, now: int): set<nat> {
    set id | id in rows && CountsNow(rows[id], subject, now)
  }

  function FailedIds(rows: Rows, subject: Subject, now: int): set<nat> {
    set id | id in rows && rows[id].status == Failed && CountsNow(rows[id], subject, now)
  }

  predicate Stale(row: Row, now: int) {
    (row.lockedUntil.None? || row.lockedUntil.value <= now) &&
    match row.status
    case Pending => row.reservedAt <= now - PENDING_RETENTION_MS
    case Failed => row.failedAt.Some? && row.failedAt.value <= now - WINDOW_MS
  }

  /** What a success of reservation `upTo` deletes: earlier failures, and itself. */
  predicate ClearedBy(id: nat, row: Row, subject: Subject, upTo: nat) {
    row.subject == subject && id <= upTo && (row.status == Failed || id == upTo)
  }

  // ----- The service's transactions. Their clock is the start of the transaction, so those that waited for a
  // lock may run in another order than their clocks, and a clean-up, which takes no lock, may overtake them.

  /** One reservation, and whether a success or a release has erased it since. */
  datatype Entry = Entry(subject: Subject, reservedAt: int, erased: bool)

  type Log = map<nat, Entry>

  /** The stored rows and the next id; and, for the record, every attempt ever reserved, the clock of the
      latest clean-up, and how far at most a reservation let through was overtaken by an earlier clean-up. */
  datatype Pins = Pins(rows: Rows, nextId: nat, log: Log, cleaned: int, lag: nat)

  datatype Event =
    | Reserve(subject: Subject, now: int)
    | Fail(subject: Subject, id: nat, now: int)
    | Clear(subject: Subject, upTo: nat)
    | Release(subject: Subject, id: nat)
    | CleanUp(now: int)

  function Erase(log: Log, ids: set<nat>): Log {
    map id | id in log :: if id in ids then log[id].(erased := true) else log[id]
  }

  predicate IsLocked(rows: Rows, subject: Subject, now: int) {
    exists id :: id in rows && LockedNow(rows[id], subject, now)
  }

  predicate IsPending(rows: Rows, subject: Subject, id: nat) {
    id in rows && rows[id].subject == subject && rows[id].status == Pending
  }

  function MarkedFailed(rows: Rows, subject: Subject, id: nat, now: int): Rows
    requires id in rows
  {
    var failed := rows[id := rows[id].(status := Failed, failedAt := Some(now))];
    if |FailedIds(failed, subject, now)| < MAX_FAILED then failed
    else failed[id := failed[id].(lockedUntil := Some(now + LOCK_MS))]
  }

  function Removed(pins: Pins, ids: set<nat>): Pins {
    pins.(rows := pins.rows - ids, log := Erase(pins.log, ids))
  }

  function Apply(pins: Pins, e: Event): Pins {
    match e
    case Reserve(subject, now) =>
      if IsLocked(pins.rows, subject, now) || |Counted(pins.rows, subject, now)| >= MAX_FAILED then pins
      else
        Pins(pins.rows[pins.nextId := Row(subject, Pending, now, None, None)], pins.nextId + 1,
             pins.log[pins.nextId := Entry(subject, now, false)], pins.cleaned, Max(pins.lag, pins.cleaned - now))
    case Fail(subject, id, now) =>
      if IsPending(pins.rows, subject, id) then pins.(rows := MarkedFailed(pins.rows, subject, id, now)) else pins
    case Clear(subject, upTo) => Removed(pins, set id | id in pins.rows && ClearedBy(id, pins.rows[id], subject, upTo))
    case Release(subject, id) => Removed(pins, if IsPending(pins.rows, subject, id) then {id} else {})
    case CleanUp(now) =>
      var stale := set id | id in pins.rows && Stale(pins.rows[id], now);
      pins.(rows := pins.rows - stale, cleaned := Max(pins.cleaned, now))
  }

  function Start(clock: int): Pins { Pins(map[], 0, map[], clock, 0) }

  function Exec(clock: int, events: seq<Event>): Pins {
    if events == [] then Start(clock) else Apply(Exec(clock, events[..|events| - 1]), events[|events| - 1])
  }

  /** A failure is recorded by a transaction begun after its reservation was returned. */
  ghost predicate Causal(pins: Pins, e: Event) {
    e.Fail? && e.id in pins.rows ==> pins.rows[e.id].reservedAt <= e.now
  }

  ghost predicate CausalRun(clock: int, events: seq<Event>) {
    forall k :: 0 <= k < |events| ==> Causal(Exec(clock, events[..k]), events[k])
  }

  // ----- The bound

  /** The attempts of a subject reserved within a window and not erased since. */
  function Standing(log: Log, subject: Subject, from: int, length: int): set<nat> {
    set id | id in log && log[id].subject == subject && !log[id].erased && from <= log[id].reservedAt < from + length
  }

  /** Any window of this length holds at most 5 attempts that nothing has erased. */
  ghost predicate Bounded(log: Log, length: int) {
    forall subject, from :: |Standing(log, subject, from, length)| <= MAX_FAILED
  }

  /** Every standing attempt still has its row, or was too old to matter at the latest clean-up. */
  ghost predicate Tracks(pins: Pins) {
    && (forall id :: id in pins.log ==> id < pins.nextId)
    && (forall id :: id in pins.rows ==>
          && id in pins.log && !pins.log[id].erased
          && pins.rows[id].subject == pins.log[id].subject && pins.rows[id].reservedAt == pins.log[id].reservedAt)
    && (forall id :: id in pins.rows && pins.rows[id].status == Failed ==>
          pins.rows[id].failedAt.Some? && pins.rows[id].reservedAt <= pins.rows[id].failedAt.value)
    && (forall id :: id in pins.log && !pins.log[id].erased ==>
          id in pins.rows || pins.log[id].reservedAt <= pins.cleaned - WINDOW_MS)
  }

  /** The windows that hold at most 5 are shorter than 15 minutes by the largest lag seen. */
  ghost predicate Sound(pins: Pins) {
    Tracks(pins) && Bounded(pins.log, WINDOW_MS - pins.lag)
  }

  /** In any window that reaches now, every standing attempt is one the reservation counts. */
  lemma StandingIsCounted(pins: Pins, subject: Subject, from: int, now: int, lag: nat)
    requires Tracks(pins) && pins.cleaned <= now + lag && from <= now < from + WINDOW_MS - lag
    ensures Standing(pins.log, subject, from, WINDOW_MS - lag) <= Counted(pins.rows, subject, now)
  {
  }

  lemma OneMoreStanding(log: Log, id: nat, subject: Subject, now: int, other: Subject, from: int, length: int)
    requires id !in log
    ensures Standing(log[id := Entry(subject, now, false)], other, from, length)
            == Standing(log, other, from, length)
              + (if other == subject && from <= now < from + length then {id} else {})
  {
  }

  lemma ShorterWindows(log: Log, length: int, shorter: int)
    requires Bounded(log, length) && shorter <= length
    ensures Bounded(log, shorter)
  {
    forall subject, from ensures |Standing(log, subject, from, shorter)| <= MAX_FAILED {
      SubsetSize(Standing(log, subject, from, shorter), Standing(log, subject, from, length));
    }
  }

  /** A reservation let through keeps the bound, however far a clean-up has overtaken it, for windows shorter
      by that much. */
  lemma ReserveKeepsBound(pins: Pins, subject: Subject, now: int, lag: nat)
    requires Tracks(pins) && Bounded(pins.log, WINDOW_MS - lag) && pins.cleaned <= now + lag
    requires |Counted(pins.rows, subject, now)| < MAX_FAILED
    ensures Bounded(pins.log[pins.nextId := Entry(subject, now, false)], WINDOW_MS - lag)
  {
    var after, length := pins.log[pins.nextId := Entry(subject, now, false)], WINDOW_MS - lag;
    assert pins.nextId !in pins.log;
    forall other, from ensures |Standing(after, other, from, length)| <= MAX_FAILED {
      OneMoreStanding(pins.log, pins.nextId, subject, now, other, from, length);
      if other == subject && from <= now < from + length {
        StandingIsCounted(pins, subject, from, now, lag);
        SubsetSize(Standing(pins.log, other, from, length), Counted(pins.rows, subject, now));
      }
    }
  }

  lemma ReserveKeepsSound(pins: Pins, subject: Subject, now: int)
    requires Sound(pins)
    ensures Sound(Apply(pins, Reserve(subject, now)))
  {
    var after := Apply(pins, Reserve(subject, now));
    if after != pins {
      ShorterWindows(pins.log, WINDOW_MS - pins.lag, WINDOW_MS - after.lag);
      ReserveKeepsBound(pins, subject, now, after.lag);
    }
  }

  lemma EraseKeepsBound(pins: Pins, ids: set<nat>)
    requires Sound(pins) && ids <= pins.rows.Keys
    ensures Sound(Removed(pins, ids))
  {
    var after, length := Erase(pins.log, ids), WINDOW_MS - pins.lag;
    forall subject, from ensures |Standing(after, subject, from, length)| <= MAX_FAILED {
      SubsetSize(Standing(after, subject, from, length), Standing(pins.log, subject, from, length));
    }
  }

  lemma ApplyKeepsSound(pins: Pins, e: Event)
    requires Sound(pins) && Causal(pins, e)
    ensures Sound(Apply(pins, e))
  {
    match e
    case Reserve(subject, now) => ReserveKeepsSound(pins, subject, now);
    case Clear(subject, upTo) =>
      EraseKeepsBound(pins, set id | id in pins.rows && ClearedBy(id, pins.rows[id], subject, upTo));
    case Release(subject, id) => EraseKeepsBound(pins, if IsPending(pins.rows, subject, id) then {id} else {});
    case _ =>
  }

  /** Over any interleaving of reserve, fail, release, success and clean-up: at most 5 attempts of a subject,
      not erased, in any window shorter than 15 minutes by the largest lag of a clean-up over a reservation. */
  lemma {:induction false} RunsAreBounded(clock: int, events: seq<Event>)
    requires CausalRun(clock, events)
    ensures Sound(Exec(clock, events))
  {
    if events == [] {
      var none: Log := map[];
      forall subject, from ensures |Standing(none, subject, from, WINDOW_MS)| <= MAX_FAILED {
        assert Standing(none, subject, from, WINDOW_MS) == {};
      }
    } else {
      var n := |events| - 1;
      forall k | 0 <= k < n ensures Causal(Exec(clock, events[..n][..k]), events[..n][k]) {
        assert events[..n][..k] == events[..k];
      }
      RunsAreBounded(clock, events[..n]);
      ApplyKeepsSound(Exec(clock, events[..n]), events[n]);
    }
  }

  /** No clean-up with a later clock ran before a reservation that was let through. */
  ghost predicate NeverOvertaken(clock: int, events: seq<Event>) {
    forall k :: 0 <= k < |events| && events[k].Reserve? ==> Exec(clock, events[..k]).cleaned <= events[k].now
  }

  lemma {:induction false} NoLag(clock: int, events: seq<Event>)
    requires NeverOvertaken(clock, events)
    ensures Exec(clock, events).lag == 0
  {
    if events != [] {
      var n := |events| - 1;
      forall k | 0 <= k < n && events[..n][k].Reserve?
        ensures Exec(clock, events[..n][..k]).cleaned <= events[..n][k].now
      {
        assert events[..n][..k] == events[..k];
      }
      NoLag(clock, events[..n]);
    }
  }

  lemma SoundWithoutLag(pins: Pins)
    requires Sound(pins) && pins.lag == 0
    ensures Bounded(pins.log, WINDOW_MS)
  {
    ShorterWindows(pins.log, WINDOW_MS - pins.lag, WINDOW_MS);
  }

  /** Without such overtaking, the full 15 minutes. */
  lemma FullWindowsAreBounded(clock: int, events: seq<Event>)
    requires CausalRun(clock, events) && NeverOvertaken(clock, events)
    ensures Bounded(Exec(clock, events).log, WINDOW_MS)
  {
    RunsAreBounded(clock, events);
    NoLag(clock, events);
    SoundWithoutLag(Exec(clock, events));
  }

  // ----- The lag cannot be left out

  function FirstIds(n: nat): (ids: set<nat>)
    ensures |ids| == n && forall id: nat :: id in ids <==> id < n
  {
    if n == 0 then {} else FirstIds(n - 1) + {n - 1}
  }

  /** After n reservations at zero. */
  function Crowd(s: Subject, n: nat): Pins {
    Pins(map id | id in FirstIds(n) :: Row(s, Pending, 0, None, None), n,
         map id | id in FirstIds(n) :: Entry(s, 0, false), 0, 0)
  }

  function Reservations(s: Subject, n: nat): seq<Event> {
    if n == 0 then [] else Reservations(s, n - 1) + [Reserve(s, 0)]
  }

  /** Five reservations at zero, one failed at once; fifteen minutes later a clean-up drops the failure; then a
      reservation that began `lag` before that clean-up gets its lock. */
  function OvertakenRun(s: Subject, lag: int): seq<Event> {
    Reservations(s, MAX_FAILED) + [Fail(s, 4, 0)] + [CleanUp(WINDOW_MS)] + [Reserve(s, WINDOW_MS - lag)]
  }

  lemma CrowdIsLetIn(s: Subject, n: nat)
    requires n < MAX_FAILED
    ensures var (rows, log) := (Crowd(s, n).rows, Crowd(s, n).log);
            Apply(Crowd(s, n), Reserve(s, 0))
            == Pins(rows[n := Row(s, Pending, 0, None, None)], n + 1, log[n := Entry(s, 0, false)], 0, 0)
  {
    assert Counted(Crowd(s, n).rows, s, 0) == FirstIds(n);
  }

  lemma CrowdRows(s: Subject, n: nat)
    ensures Crowd(s, n).rows[n := Row(s, Pending, 0, None, None)] == Crowd(s, n + 1).rows
  {
  }

  lemma CrowdLog(s: Subject, n: nat)
    ensures Crowd(s, n).log[n := Entry(s, 0, false)] == Crowd(s, n + 1).log
  {
  }

  lemma CrowdGrows(s: Subject, n: nat)
    requires n < MAX_FAILED
    ensures Apply(Crowd(s, n), Reserve(s, 0)) == Crowd(s, n + 1)
  {
    CrowdIsLetIn(s, n);
    CrowdRows(s, n);
    CrowdLog(s, n);
  }

  /** One failure among five, cleaned up, leaves four rows and five attempts on record. */
  function Cleaned(s: Subject): Pins { Pins(Crowd(s, 4).rows, 5, Crowd(s, 5).log, WINDOW_MS, 0) }

  function OneFailed(s: Subject): Pins {
    Crowd(s, 5).(rows := Crowd(s, 5).rows[4 := Row(s, Failed, 0, Some(0), None)])
  }

  lemma OneFails(s: Subject)
    ensures Causal(Crowd(s, 5), Fail(s, 4, 0)) && Apply(Crowd(s, 5), Fail(s, 4, 0)) == OneFailed(s)
  {
    assert FailedIds(OneFailed(s).rows, s, 0) == {4};
  }

  lemma CrowdIsCleaned(s: Subject)
    ensures Apply(OneFailed(s), CleanUp(WINDOW_MS)) == Cleaned(s)
  {
    var rows := OneFailed(s).rows;
    assert (set id | id in rows && Stale(rows[id], WINDOW_MS)) == {4};
    assert rows - {4} == Crowd(s, 4).rows;
  }

  lemma LateReservation(s: Subject, lag: int)
    requires 0 < lag <= WINDOW_MS
    ensures var after := Apply(Cleaned(s), Reserve(s, WINDOW_MS - lag));
            after.lag == lag && Standing(after.log, s, 0, WINDOW_MS - lag + 1) == FirstIds(6)
  {
    assert Counted(Cleaned(s).rows, s, WINDOW_MS - lag) == FirstIds(4);
  }

  lemma ExecOneMore(clock: int, events: seq<Event>, e: Event)
    requires CausalRun(clock, events) && Causal(Exec(clock, events), e)
    ensures CausalRun(clock, events + [e]) && Exec(clock, events + [e]) == Apply(Exec(clock, events), e)
  {
    assert (events + [e])[..|events|] == events;
    forall k | 0 <= k < |events + [e]| ensures Causal(Exec(clock, (events + [e])[..k]), (events + [e])[k]) {
      if k < |events| { assert (events + [e])[..k] == events[..k]; }
    }
  }

  lemma NobodyYet(s: Subject)
    ensures CausalRun(0, []) && Exec(0, []) == Crowd(s, 0)
  {
    assert Crowd(s, 0) == Start(0);
  }

  lemma OneMoreJoins(s: Subject, n: nat, events: seq<Event>)
    requires n < MAX_FAILED && CausalRun(0, events) && Exec(0, events) == Crowd(s, n)
    ensures CausalRun(0, events + [Reserve(s, 0)]) && Exec(0, events + [Reserve(s, 0)]) == Crowd(s, n + 1)
  {
    ExecOneMore(0, events, Reserve(s, 0));
    CrowdGrows(s, n);
  }

  lemma {:induction false} CrowdIsReached(s: Subject, n: nat)
    requires n <= MAX_FAILED
    ensures CausalRun(0, Reservations(s, n)) && Exec(0, Reservations(s, n)) == Crowd(s, n)
  {
    if n == 0 {
      NobodyYet(s);
    } else {
      CrowdIsReached(s, n - 1);
      OneMoreJoins(s, n - 1, Reservations(s, n - 1));
    }
  }

  /** Exactly tight: for every lag, windows one millisecond longer than the bound speaks of can hold six. */
  lemma LagIsTight(s: Subject, lag: int)
    requires 0 < lag <= WINDOW_MS
    ensures CausalRun(0, OvertakenRun(s, lag)) && Exec(0, OvertakenRun(s, lag)).lag == lag
    ensures |Standing(Exec(0, OvertakenRun(s, lag)).log, s, 0, WINDOW_MS - lag + 1)| == MAX_FAILED + 1
  {
    var five, failed := Reservations(s, MAX_FAILED), Reservations(s, MAX_FAILED) + [Fail(s, 4, 0)];
    CrowdIsReached(s, MAX_FAILED);
    OneFails(s);
    CrowdIsCleaned(s);
    ExecOneMore(0, five, Fail(s, 4, 0));
    ExecOneMore(0, failed, CleanUp(WINDOW_MS));
    ExecOneMore(0, failed + [CleanUp(WINDOW_MS)], Reserve(s, WINDOW_MS - lag));
    LateReservation(s, lag);
  }

  class StaffPinAttempts {
    var rows: Rows
    var nextId: nat
    ghost var log: Log
    ghost var cleaned: int
    ghost var lag: nat

    ghost function State(): Pins
      reads this
    {
      Pins(rows, nextId, log, cleaned, lag)
    }

    constructor (ghost clock: int)
      ensures State() == Start(clock)
    {
      rows, nextId, log, cleaned, lag := map[], 0, map[], clock, 0;
    }

    /** Counts before it inserts: a reservation is refused under a lock or with five attempts counted. */
    method ReserveAttempt(subject: Subject, now: int) returns (r: Reservation)
      requires Sound(State())
      modifies this
      ensures Sound(State()) && State() == Apply(old(State()), Reserve(subject, now))
      ensures r.Locked? <==> IsLocked(old(rows), subject, now)
      ensures r.Locked? ==> r.until > now && forall id :: id in old(rows) && LockedNow(old(rows)[id], subject, now) ==>
                old(rows)[id].lockedUntil.value <= r.until
      ensures r.Busy? <==> !r.Locked? && |Counted(old(rows), subject, now)| >= MAX_FAILED
      ensures r.Reserved? ==>
                r.id == old(nextId) && r.id !in old(log) && r.id in rows
                  && log == old(log)[r.id := Entry(subject, now, false)]
      ensures !r.Reserved? ==> State() == old(State())
    {
      ReserveKeepsSound(State(), subject, now);
      var locks := set id | id in rows && LockedNow(rows[id], subject, now);
      if locks != {} {
        var until := LatestLock(rows, locks);
        return Locked(until);
      }
      assert forall id :: id in rows && LockedNow(rows[id], subject, now) ==> id in locks;
      if |Counted(rows, subject, now)| >= MAX_FAILED { return Busy; }
      rows, log := rows[nextId := Row(subject, Pending, now, None, None)], log[nextId := Entry(subject, now, false)];
      nextId, lag := nextId + 1, Max(lag, cleaned - now);
      return Reserved(nextId - 1);
    }

    static method LatestLock(rows: Rows, locks: set<nat>) returns (until: int)
      requires locks != {} && forall id :: id in locks ==> id in rows && rows[id].lockedUntil.Some?
      ensures exists id :: id in locks && rows[id].lockedUntil.value == until
      ensures forall id :: id in locks ==> rows[id].lockedUntil.value <= until
    {
      var first :| first in locks;
      until := rows[first].lockedUntil.value;
      var todo := locks - {first};
      while todo != {}
        invariant todo <= locks
        invariant exists id :: id in locks && rows[id].lockedUntil.value == until
        invariant forall id :: id in locks - todo ==> rows[id].lockedUntil.value <= until
      {
        var id :| id in todo;
        todo := todo - {id};
        if rows[id].lockedUntil.value > until { until := rows[id].lockedUntil.value; }
      }
    }

    /** Turns a still pending reservation into a failure; the fifth one in the window locks the subject. */
    method MarkCredentialFailure(subject: Subject, id: nat, now: int) returns (locked: bool)
      requires Sound(State()) && Causal(State(), Fail(subject, id, now))
      modifies `rows
      ensures Sound(State()) && State() == Apply(old(State()), Fail(subject, id, now))
      ensures rows.Keys == old(rows).Keys && forall k :: k in rows && k != id ==> rows[k] == old(rows)[k]
      ensures !IsPending(old(rows), subject, id) ==> !locked
      ensures IsPending(old(rows), subject, id) ==>
                && rows[id].status == Failed && rows[id].failedAt == Some(now)
                && (locked <==> |FailedIds(rows, subject, now)| >= MAX_FAILED)
                && rows[id].lockedUntil == if locked then Some(now + LOCK_MS) else old(rows)[id].lockedUntil
    {
      ApplyKeepsSound(State(), Fail(subject, id, now));
      if !IsPending(rows, subject, id) { return false; }
      rows := rows[id := rows[id].(status := Failed, failedAt := Some(now))];
      if |FailedIds(rows, subject, now)| < MAX_FAILED { return false; }
      ghost var counted := FailedIds(rows, subject, now);
      rows := rows[id := rows[id].(lockedUntil := Some(now + LOCK_MS))];
      assert FailedIds(rows, subject, now) == counted;
      return true;
    }

    /** A success erases its own reservation and earlier failures; it never touches a later reservation,
        nor any pending one but its own, nor another subject. */
    method ClearThrough(subject: Subject, upTo: nat)
      requires Sound(State())
      modifies `rows, `log
      ensures Sound(State()) && State() == Apply(old(State()), Clear(subject, upTo))
      ensures forall id :: id in rows <==> id in old(rows) && !ClearedBy(id, old(rows)[id], subject, upTo)
      ensures forall id :: id in rows ==> rows[id] == old(rows)[id]
      ensures forall id :: id in old(rows) && id > upTo ==> id in rows && rows[id] == old(rows)[id]
    {
      ApplyKeepsSound(State(), Clear(subject, upTo));
      var cleared := set id | id in rows && ClearedBy(id, rows[id], subject, upTo);
      rows, log := rows - cleared, Erase(log, cleared);
    }

    method ReleaseReservation(subject: Subject, id: nat)
      requires Sound(State())
      modifies `rows, `log
      ensures Sound(State()) && State() == Apply(old(State()), Release(subject, id))
      ensures forall k :: k in old(rows) ==> (k !in rows <==> k == id && IsPending(old(rows), subject, id))
    {
      ApplyKeepsSound(State(), Release(subject, id));
      var gone := if IsPending(rows, subject, id) then {id} else {};
      rows, log := rows - gone, Erase(log, gone);
    }

    /** Retention forgets only rows that no later decision would count. */
    method CleanupStaleAttempts(now: int)
      requires Sound(State())
      modifies `rows, `cleaned
      ensures Sound(State()) && State() == Apply(old(State()), CleanUp(now))
      ensures forall id :: id in rows ==> id in old(rows) && rows[id] == old(rows)[id]
      ensures forall id :: id in old(rows) ==> (id !in rows <==> Stale(old(rows)[id], now))
      ensures forall subject, later :: later > now ==>
                Counted(rows, subject, later) == Counted(old(rows), subject, later)
      ensures forall id, subject, later ::
                later >= now && id in old(rows) && LockedNow(old(rows)[id], subject, later) ==> id in rows
    {
      ApplyKeepsSound(State(), CleanUp(now));
      var stale := set id | id in rows && Stale(rows[id], now);
      forall subject, later | later > now
        ensures Counted(rows - stale, subject, later) == Counted(rows, subject, later)
      {
      }
      rows, cleaned := rows - stale, Max(cleaned, now);
    }
  }
}
