/** What happens to one booking, one guest and one request over whole runs. */
module BookingHistory {
  import opened Basics
  import opened BookingTime
  import opened Bookings
  import opened BookingSlots
  import opened BookingEffects
  import opened BookingLaws
  import opened BookingRuns

  // ----- One step and one booking

  /** The event approves a pending request to move this booking in time. */
  ghost predicate Reschedules(db: Db, e: Event, id: Id) {
    e.RescheduleApproved? && e.request in db.moves && db.moves[e.request].pending && db.moves[e.request].booking == id
  }

  /** The event is one of the three ways to move this booking to another table. */
  ghost predicate Relocates(db: Db, e: Event, id: Id) {
    || ((e.WaiterMoves? || e.StaffMoves?) && e.id == id)
    || (e.TableChangeApproved? && e.request in db.changes && db.changes[e.request].pending
        && db.changes[e.request].booking == id)
  }

  ghost predicate SameTime(was: Booking, b: Booking) { b.date == was.date && b.time == was.time }

  ghost predicate SameTables(was: Booking, b: Booking) { b.table == was.table && b.assignments == was.assignments }

  ghost predicate SameGuest(was: Booking, b: Booking) {
    b.stored == was.stored && b.guests == was.guests && b.phone == was.phone && b.device == was.device
  }

  /** What an event may do to a booking: a new time only as requested, a new table only where the move led. */
  ghost predicate Traces(db: Db, e: Event, id: Id, was: Booking, b: Booking) {
    && SameGuest(was, b)
    && (!Reschedules(db, e, id) ==> SameTime(was, b))
    && (Reschedules(db, e, id) ==>
          || SameTime(was, b)
          || (b.date == db.moves[e.request].date && Requested(db.moves[e.request]).Some?
              && b.time == Requested(db.moves[e.request])))
    && (!Relocates(db, e, id) ==> SameTables(was, b))
    && (Relocates(db, e, id) ==> SameTables(was, b) || MovedTo(was, b, e.next))
  }

  /** What a creation comes down to: placing a draft in these rows, perhaps with a table made for it. */
  datatype Placing = Placing(from: Db, table: Id, ids: set<Id>, assignments: map<Id, bool>, draft: Draft,
                             status: BookingStatus)

  ghost predicate Creates(e: Event) { e.GuestBooks? || e.StaffBooks? || e.BanquetBooked? }

  lemma CreationPlaces(db: Db, today: int, e: Event) returns (p: Placing)
    requires Creates(e) && Handle(db, today, e).Done?
    ensures Handle(db, today, e) == Place(p.from, today, p.table, p.ids, p.assignments, p.draft, p.status, e.id)
    ensures p.from.bookings == db.bookings && p.from.moves == db.moves && p.from.changes == db.changes
  {
    match e
    case GuestBooks(table, number, draft, seats, _, newTable, id) =>
      var named := Submitted(db, number).value;
      var found := Resolve(db, table, named);
      p := if found.Some? then Placing(db, found.value, {found.value}, map[], draft, Pending)
           else Placing(WithTable(db, newTable, named.value, seats), newTable, {newTable}, map[], draft, Pending);
    case StaffBooks(table, draft, _, id) =>
      p := Placing(db, table.value, {table.value}, map[], draft.(device := None), Approved);
    case BanquetBooked(tables, primary, draft, _, id) =>
      p := Placing(db, primary, ToSet(tables), Assigned(ToSet(tables), primary), draft.(device := None), Approved);
    case _ =>
  }

  lemma PlaceKeepsRest(p: Placing, today: int, id: Id)
    ensures var o := Place(p.from, today, p.table, p.ids, p.assignments, p.draft, p.status, id);
            o.Done? ==>
              && o.db.moves == p.from.moves && o.db.changes == p.from.changes
              && id !in p.from.bookings && OnlyRow(p.from.bookings, o.db.bookings, id)
              && ParseTime(p.draft.time).Some?
              && o.db.bookings[id] == NewBooking(p.draft, p.table, p.assignments, p.status)
              && GuestFree(p.from.bookings, p.draft.date, p.draft.phone, p.draft.device, None)
  {
  }

  lemma CreationKeepsRow(db: Db, today: int, e: Event, id: Id)
    requires id in db.bookings && Creates(e)
    ensures id in Step(db, today, e).bookings && Step(db, today, e).bookings[id] == db.bookings[id]
  {
    if Handle(db, today, e).Done? {
      var p := CreationPlaces(db, today, e);
      PlaceKeepsRest(p, today, e.id);
    }
  }

  lemma MoveTraces(db: Db, today: int, e: Event, id: Id)
    requires id in db.bookings && Handle(db, today, e).Done?
    requires e.WaiterMoves? || e.StaffMoves? || e.TableChangeApproved?
    ensures id in Step(db, today, e).bookings && Traces(db, e, id, db.bookings[id], Step(db, today, e).bookings[id])
  {
    match e
    case WaiterMoves(other, next) => WaiterMovedBooking(db, today, other, next);
    case StaffMoves(other, next) => TransferredBooking(db, today, other, next);
    case TableChangeApproved(request, next) => ChangedTable(db, today, request, next);
    case _ =>
  }

  lemma RescheduleTraces(db: Db, today: int, e: Event, id: Id)
    requires id in db.bookings && Handle(db, today, e).Done? && e.RescheduleApproved?
    ensures id in Step(db, today, e).bookings && Traces(db, e, id, db.bookings[id], Step(db, today, e).bookings[id])
  {
    RescheduledBooking(db, today, e.request);
  }

  lemma EndTraces(db: Db, today: int, e: Event, id: Id)
    requires id in db.bookings && Handle(db, today, e).Done? && (e.Transition? || e.Closing?)
    ensures id in Step(db, today, e).bookings && Traces(db, e, id, db.bookings[id], Step(db, today, e).bookings[id])
  {
    match e
    case Transition(other, _, transition) => TransitChangesOneRow(db, today, other, transition);
    case Closing(other, closing) => CloseChangesOneRow(db, today, other, closing);
    case _ =>
  }

  /** Every event leaves every booking in place and changes its time or tables only as the event is for. */
  lemma StepTraces(db: Db, today: int, e: Event, id: Id)
    requires id in db.bookings
    ensures id in Step(db, today, e).bookings && Traces(db, e, id, db.bookings[id], Step(db, today, e).bookings[id])
  {
    if Creates(e) {
      CreationKeepsRow(db, today, e, id);
    } else if Handle(db, today, e).Done? {
      if e.WaiterMoves? || e.StaffMoves? || e.TableChangeApproved? {
        MoveTraces(db, today, e, id);
      } else if e.Transition? || e.Closing? {
        EndTraces(db, today, e, id);
      } else if e.RescheduleApproved? {
        RescheduleTraces(db, today, e, id);
      }
    }
  }

  // ----- Whole runs and one booking

  /** A booking's date and minutes change along a run only where a request to move it is approved. */
  lemma {:induction false} TimeStaysUntilRescheduled(db: Db, run: seq<Dated>, id: Id)
    requires id in db.bookings
    requires forall k :: 0 <= k < |run| ==> !Reschedules(Exec(db, run[..k]), run[k].event, id)
    ensures id in Exec(db, run).bookings && SameTime(db.bookings[id], Exec(db, run).bookings[id])
  {
    if run != [] {
      var n := |run| - 1;
      forall k | 0 <= k < n ensures !Reschedules(Exec(db, run[..n][..k]), run[..n][k].event, id) {
        assert run[..n][..k] == run[..k];
      }
      TimeStaysUntilRescheduled(db, run[..n], id);
      StepTraces(Exec(db, run[..n]), run[n].today, run[n].event, id);
    }
  }

  /** Its tables change only where one of the three moves is made for it. */
  lemma {:induction false} TablesStayUntilMoved(db: Db, run: seq<Dated>, id: Id)
    requires id in db.bookings
    requires forall k :: 0 <= k < |run| ==> !Relocates(Exec(db, run[..k]), run[k].event, id)
    ensures id in Exec(db, run).bookings && SameTables(db.bookings[id], Exec(db, run).bookings[id])
  {
    if run != [] {
      var n := |run| - 1;
      forall k | 0 <= k < n ensures !Relocates(Exec(db, run[..n][..k]), run[..n][k].event, id) {
        assert run[..n][..k] == run[..k];
      }
      TablesStayUntilMoved(db, run[..n], id);
      StepTraces(Exec(db, run[..n]), run[n].today, run[n].event, id);
    }
  }

  /** No run loses a booking, its length, its guest or the size of the party. */
  lemma {:induction false} GuestStays(db: Db, run: seq<Dated>, id: Id)
    requires id in db.bookings
    ensures id in Exec(db, run).bookings && SameGuest(db.bookings[id], Exec(db, run).bookings[id])
  {
    if run != [] {
      var n := |run| - 1;
      GuestStays(db, run[..n], id);
      StepTraces(Exec(db, run[..n]), run[n].today, run[n].event, id);
    }
  }

  // ----- Requests

  /** What becomes of a request: it stays the one it was, until it is settled, and then stays settled. */
  ghost predicate RequestsFollow(before: Db, after: Db) {
    && before.moves.Keys <= after.moves.Keys && before.changes.Keys <= after.changes.Keys
    && (forall r :: r in before.moves ==>
        after.moves[r] == before.moves[r] || after.moves[r] == before.moves[r].(pending := false))
    && (forall r :: r in before.changes ==>
          after.changes[r] == before.changes[r] || after.changes[r] == before.changes[r].(pending := false))
  }

  lemma CreationKeepsRequests(db: Db, today: int, e: Event)
    requires Creates(e)
    ensures Step(db, today, e).moves == db.moves && Step(db, today, e).changes == db.changes
  {
    if Handle(db, today, e).Done? {
      var p := CreationPlaces(db, today, e);
      PlaceKeepsRest(p, today, e.id);
    }
  }

  lemma StepFollowsRequests(db: Db, today: int, e: Event)
    ensures RequestsFollow(db, Step(db, today, e))
  {
    if Creates(e) { CreationKeepsRequests(db, today, e); }
  }

  /** A settled request is never pending again, so it is granted at most once. */
  lemma {:induction false} SettledForGood(db: Db, run: seq<Dated>, request: Id)
    ensures request in db.moves && !db.moves[request].pending ==>
              request in Exec(db, run).moves && Exec(db, run).moves[request] == db.moves[request]
    ensures request in db.changes && !db.changes[request].pending ==>
              request in Exec(db, run).changes && Exec(db, run).changes[request] == db.changes[request]
  {
    if run != [] {
      var n := |run| - 1;
      SettledForGood(db, run[..n], request);
      StepFollowsRequests(Exec(db, run[..n]), run[n].today, run[n].event);
    }
  }

  lemma GrantedOnce(db: Db, today: int, request: Id, run: seq<Dated>, later: int)
    requires ApproveReschedule(db, today, request).Done?
    ensures ApproveReschedule(Exec(ApproveReschedule(db, today, request).db, run), later, request) == Refused
  {
    SettledForGood(ApproveReschedule(db, today, request).db, run, request);
  }

  // ----- One booking a day

  ghost predicate BothInForce(a: Booking, b: Booking) { InForce(a) && InForce(b) && a.date == b.date }

  /** No two bookings of one date, pending or approved, are for one phone or one device. */
  ghost predicate OnePerGuest(bookings: map<Id, Booking>) {
    forall i, j :: i in bookings && j in bookings && i != j && BothInForce(bookings[i], bookings[j]) ==>
        && (bookings[i].phone != None ==> bookings[i].phone != bookings[j].phone)
        && (bookings[i].device != None ==> bookings[i].device != bookings[j].device)
  }

  lemma FreeGuestKeepsOne(bookings: map<Id, Booking>, id: Id, b: Booking, except: Option<Id>)
    requires OnePerGuest(bookings) && (except == None || except == Some(id))
    requires b.Active() ==> GuestFree(bookings, b.date, b.phone, b.device, except)
    ensures OnePerGuest(bookings[id := b])
  {
  }

  lemma SameDayKeepsOne(bookings: map<Id, Booking>, id: Id, b: Booking)
    requires OnePerGuest(bookings) && id in bookings
    requires var was := bookings[id];
             b.date == was.date && b.phone == was.phone && b.device == was.device && (b.Active() ==> was.Active())
    ensures OnePerGuest(bookings[id := b])
  {
  }

  lemma CreationKeepsOne(db: Db, today: int, e: Event)
    requires OnePerGuest(db.bookings) && Creates(e) && Handle(db, today, e).Done?
    ensures OnePerGuest(Handle(db, today, e).db.bookings)
  {
    var p := CreationPlaces(db, today, e);
    PlaceKeepsRest(p, today, e.id);
    var b, after := NewBooking(p.draft, p.table, p.assignments, p.status), Handle(db, today, e).db.bookings;
    FreeGuestKeepsOne(db.bookings, e.id, b, None);
    assert after == db.bookings[e.id := b];
  }

  /** The row an event changes, if it changes one. */
  ghost predicate OneRowStep(before: map<Id, Booking>, after: map<Id, Booking>, id: Id) {
    id in before && id in after && after == before[id := after[id]]
  }

  lemma OnlyRowIsUpdate(before: map<Id, Booking>, after: map<Id, Booking>, id: Id)
    requires OnlyRow(before, after, id) && id in before
    ensures OneRowStep(before, after, id)
  {
  }

  lemma StepKeepsOne(db: Db, today: int, e: Event)
    requires OnePerGuest(db.bookings)
    ensures OnePerGuest(Step(db, today, e).bookings)
  {
    if Creates(e) && Handle(db, today, e).Done? {
      CreationKeepsOne(db, today, e);
    } else if Handle(db, today, e).Done? {
      var after := Handle(db, today, e).db.bookings;
      match e
      case Transition(id, _, transition) =>
        TransitChangesOneRow(db, today, id, transition);
        SameDayKeepsOne(db.bookings, id, after[id]);
      case Closing(id, closing) =>
        CloseChangesOneRow(db, today, id, closing);
        SameDayKeepsOne(db.bookings, id, after[id]);
      case WaiterMoves(id, next) =>
        WaiterMovedBooking(db, today, id, next);
        OnlyRowIsUpdate(db.bookings, after, id);
        SameDayKeepsOne(db.bookings, id, after[id]);
      case StaffMoves(id, next) =>
        TransferredBooking(db, today, id, next);
        OnlyRowIsUpdate(db.bookings, after, id);
        SameDayKeepsOne(db.bookings, id, after[id]);
      case TableChangeApproved(request, next) =>
        var id := db.changes[request].booking;
        ChangedTable(db, today, request, next);
        OnlyRowIsUpdate(db.bookings, after, id);
        SameDayKeepsOne(db.bookings, id, after[id]);
      case RescheduleApproved(request) =>
        var id := db.moves[request].booking;
        RescheduledBooking(db, today, request);
        OnlyRowIsUpdate(db.bookings, after, id);
        FreeGuestKeepsOne(db.bookings, id, after[id], Some(id));
      case _ =>
    }
  }

  /** In every run a guest has at most one active booking a day, by phone and by device. */
  lemma {:induction false} RunsKeepOneBookingPerGuest(db: Db, run: seq<Dated>)
    requires OnePerGuest(db.bookings)
    ensures OnePerGuest(Exec(db, run).bookings)
  {
    if run != [] {
      var n := |run| - 1;
      RunsKeepOneBookingPerGuest(db, run[..n]);
      StepKeepsOne(Exec(db, run[..n]), run[n].today, run[n].event);
    }
  }

  // ----- What becomes of a booking's status and arrival

  /** The only ways one event changes a booking's status: approval, arrival, and the four closings of that booking. */
  ghost predicate StatusTraces(e: Event, id: Id, was: Booking, b: Booking) {
    if e.Transition? && e.id == id then b.status == was.status || (was.status == Pending && b.status == Approved)
    else if e.Closing? && e.id == id then b.status == was.status || b.status == StatusAfter(e.closing)
    else b.status == was.status
  }

  /** Arrival is recorded only by an arrival of that booking, and forgotten only by a waiter's move of it. */
  ghost predicate ArrivalTraces(e: Event, id: Id, was: Booking, b: Booking) {
    && (b.checkedIn && !was.checkedIn ==> e.Transition? && e.id == id && e.transition == CheckIn)
    && (was.checkedIn && !b.checkedIn ==> e.WaiterMoves? && e.id == id)
  }

  lemma MoveTracesStatus(db: Db, today: int, e: Event, id: Id)
    requires id in db.bookings && Handle(db, today, e).Done?
    requires e.WaiterMoves? || e.StaffMoves? || e.TableChangeApproved?
    ensures id in Handle(db, today, e).db.bookings
    ensures var was, b := db.bookings[id], Handle(db, today, e).db.bookings[id];
            StatusTraces(e, id, was, b) && ArrivalTraces(e, id, was, b)
  {
    match e
    case WaiterMoves(other, next) => var _ := WaiterMoveLeaves(db, today, other, next);
    case StaffMoves(other, next) => StaffMoveLeaves(db, today, other, next);
    case TableChangeApproved(request, next) => var _ := ChangeLeaves(db, today, request, next);
    case _ =>
  }

  lemma StepTracesStatus(db: Db, today: int, e: Event, id: Id)
    requires id in db.bookings
    ensures id in Step(db, today, e).bookings
    ensures StatusTraces(e, id, db.bookings[id], Step(db, today, e).bookings[id])
    ensures ArrivalTraces(e, id, db.bookings[id], Step(db, today, e).bookings[id])
  {
    if Handle(db, today, e).Done? {
      if Creates(e) {
        CreationKeepsRow(db, today, e, id);
      } else {
        match e
        case Transition(other, _, transition) => TransitLeaves(db, today, other, transition);
        case Closing(other, closing) => ClosedLeaves(db, today, other, closing);
        case RescheduleApproved(request) => NewTimeLeaves(db, today, request);
        case WaiterMoves(_, _) => MoveTracesStatus(db, today, e, id);
        case StaffMoves(_, _) => MoveTracesStatus(db, today, e, id);
        case TableChangeApproved(_, _) => MoveTracesStatus(db, today, e, id);
        case _ =>
      }
    }
  }

  /** Once arrival is recorded it stays so, through any run in which no waiter moves the booking. */
  lemma {:induction false} ArrivalStays(db: Db, run: seq<Dated>, id: Id)
    requires id in db.bookings && db.bookings[id].checkedIn
    requires forall d :: d in run ==> !(d.event.WaiterMoves? && d.event.id == id)
    ensures id in Exec(db, run).bookings && Exec(db, run).bookings[id].checkedIn
  {
    if run != [] {
      var n := |run| - 1;
      ArrivalStays(db, run[..n], id);
      assert run[n] in run;
      StepTracesStatus(Exec(db, run[..n]), run[n].today, run[n].event, id);
    }
  }

  /** So a no-show is refused until a waiter's move forgets the arrival. */
  lemma NoShowIsRefused(db: Db, run: seq<Dated>, id: Id, today: int)
    requires id in db.bookings && db.bookings[id].checkedIn
    requires forall d :: d in run ==> !(d.event.WaiterMoves? && d.event.id == id)
    ensures Close(Exec(db, run), today, id, NoShow) == Refused
  {
    ArrivalStays(db, run, id);
    ClosedExactly(Exec(db, run), today, id, NoShow);
  }

  /** A booking keeps its status through any run that neither approves, seats nor closes it. */
  lemma {:induction false} StatusStays(db: Db, run: seq<Dated>, id: Id)
    requires id in db.bookings
    requires forall d :: d in run ==> !((d.event.Transition? || d.event.Closing?) && d.event.id == id)
    ensures id in Exec(db, run).bookings && Exec(db, run).bookings[id].status == db.bookings[id].status
  {
    if run != [] {
      var n := |run| - 1;
      StatusStays(db, run[..n], id);
      assert run[n] in run;
      StepTracesStatus(Exec(db, run[..n]), run[n].today, run[n].event, id);
    }
  }

  /** A table change once granted is refused again after any run. */
  lemma ChangeGrantedOnce(db: Db, today: int, request: Id, next: Id, run: seq<Dated>, later: int, other: Id)
    requires ApproveTableChange(db, today, request, next).Done?
    ensures ApproveTableChange(Exec(ApproveTableChange(db, today, request, next).db, run), later, request,
                               other) == Refused
  {
    var between := ChangeLeaves(db, today, request, next);
    SettledForGood(ApproveTableChange(db, today, request, next).db, run, request);
  }
}
