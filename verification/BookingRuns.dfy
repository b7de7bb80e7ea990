/** Runs of the booking operations in any order, on any days, refused or not. */
module BookingRuns {
  import opened Basics
  import opened BookingTime
  import opened Bookings
  import opened BookingSlots
  import opened BookingBlocks

  datatype Event =
    | GuestBooks(table: Option<Id>, number: Option<string>, draft: Draft, seats: int, admitted: bool, newTable: Id,
                 id: Id)
    | StaffBooks(table: Option<Id>, draft: Draft, admitted: bool, id: Id)
    | BanquetBooked(tables: seq<Id>, primary: Id, draft: Draft, admitted: bool, id: Id)
    | Transition(id: Id, seen: Option<Booking>, transition: Transition)
    | Closing(id: Id, closing: Closing)
    | WaiterMoves(id: Id, next: Id)
    | StaffMoves(id: Id, next: Id)
    | TableChangeAsked(request: Id, booking: Id)
    | TableChangeApproved(request: Id, next: Id)
    | RescheduleAsked(request: Id, booking: Id, date: int, time: string)
    | RescheduleApproved(request: Id)
    | BlockPlanned(target: Option<Target>, date: int, start: Option<string>, end: Option<string>, reasoned: bool,
                   id: Id)
    | BlockRemoved(id: Id)

  /** Every creation is preceded by the check against planned unavailability, under the same lock. */
  function Handle(db: Db, today: int, e: Event): Outcome {
    match e
    case GuestBooks(table, number, draft, seats, admitted, newTable, id) =>
      GuestRequest(db, today, table, number, draft, seats, admitted, newTable, id)
    case StaffBooks(table, draft, admitted, id) =>
      if table.None? || !Bookable(db, today, table, None, draft) then Refused
      else CreateManual(db, today, table.value, draft, admitted, id)
    case BanquetBooked(tables, primary, draft, admitted, id) =>
      if exists t :: t in tables && !Bookable(db, today, Some(t), None, draft) then Refused
      else CreateManualBanquet(db, today, tables, primary, draft, admitted, id)
    case Transition(id, seen, transition) => CoordinatedTransit(db, today, id, seen, transition)
    case Closing(id, closing) => Close(db, today, id, closing)
    case WaiterMoves(id, next) => WaiterTransfer(db, today, id, next)
    case StaffMoves(id, next) => TransferBooking(db, today, id, next)
    case TableChangeAsked(request, booking) => RequestTableChange(db, request, booking)
    case TableChangeApproved(request, next) => ApproveTableChange(db, today, request, next)
    case RescheduleAsked(request, booking, date, time) => RequestReschedule(db, request, booking, date, time)
    case RescheduleApproved(request) => ApproveReschedule(db, today, request)
    case BlockPlanned(target, date, start, end, reasoned, id) =>
      CreateBlock(db, today, target, date, start, end, reasoned, id)
    case BlockRemoved(id) => RemoveBlock(db, id)
  }

  /** A refused operation is rolled back. */
  function Step(db: Db, today: int, e: Event): Db {
    var o := Handle(db, today, e);
    if o.Done? then o.db else db
  }

  datatype Dated = Dated(today: int, event: Event)

  function Exec(db: Db, run: seq<Dated>): Db {
    if run == [] then db
    else Step(Exec(db, run[..|run| - 1]), run[|run| - 1].today, run[|run| - 1].event)
  }

  // ----- No double booking

  lemma StepKeepsSound(db: Db, today: int, e: Event)
    requires Sound(db.bookings) && !e.RescheduleApproved?
    ensures Sound(Step(db, today, e).bookings)
  {
    match e
    case GuestBooks(table, number, draft, seats, admitted, newTable, id) =>
      if GuestRequest(db, today, table, number, draft, seats, admitted, newTable, id).Done? {
        CreateKeepsSound(db, today, table, Submitted(db, number).value, draft, seats, admitted, newTable, id);
      }
    case StaffBooks(table, draft, admitted, id) =>
      if table.Some? { ManualKeepsSound(db, today, table.value, draft, admitted, id); }
    case BanquetBooked(tables, primary, draft, admitted, id) =>
      BanquetKeepsSound(db, today, tables, primary, draft, admitted, id);
    case Transition(id, _, transition) =>
      if Transit(db, today, id, transition).Done? { TransitKeepsSound(db, today, id, transition); }
    case Closing(id, closing) => if Close(db, today, id, closing).Done? { CloseKeepsSound(db, today, id, closing); }
    case WaiterMoves(id, next) => WaiterTransferKeepsSound(db, today, id, next);
    case StaffMoves(id, next) => TransferKeepsSound(db, today, id, next);
    case TableChangeApproved(request, next) => ApproveChangeKeepsSound(db, today, request, next);
    case _ =>
  }

  /** Whatever the run, as long as no new time is approved, no table is promised twice for one minute. */
  lemma {:induction false} RunsNeverDoubleBook(db: Db, run: seq<Dated>)
    requires Sound(db.bookings)
    requires forall d :: d in run ==> !d.event.RescheduleApproved?
    ensures Sound(Exec(db, run).bookings)
  {
    if run != [] {
      var n := |run| - 1;
      RunsNeverDoubleBook(db, run[..n]);
      StepKeepsSound(Exec(db, run[..n]), run[n].today, run[n].event);
    }
  }

  // ----- Runs without banquets

  lemma StepKeepsPlain(db: Db, today: int, e: Event)
    requires AllPlain(db.bookings) && !e.BanquetBooked?
    ensures AllPlain(Step(db, today, e).bookings)
  {
    match e
    case GuestBooks(table, number, draft, seats, admitted, newTable, id) =>
      if GuestRequest(db, today, table, number, draft, seats, admitted, newTable, id).Done? {
        CreateStaysPlain(db, today, table, Submitted(db, number).value, draft, seats, admitted, newTable, id);
      }
    case StaffBooks(table, draft, _, id) =>
      if table.Some? { PlaceStaysPlain(db, today, table.value, draft.(device := None), Approved, id); }
    case WaiterMoves(id, next) => WaiterMovesStayPlain(db, today, id, next);
    case StaffMoves(id, next) => StaffMovesStayPlain(db, today, id, next);
    case TableChangeApproved(request, next) => ChangesStayPlain(db, today, request, next);
    case Transition(id, _, transition) =>
      if Transit(db, today, id, transition).Done? { TransitChangesOneRow(db, today, id, transition); }
    case Closing(id, closing) => if Close(db, today, id, closing).Done? { CloseChangesOneRow(db, today, id, closing); }
    case _ =>
  }

  lemma CreateStaysPlain(db: Db, today: int, table: Option<Id>, number: Option<string>, draft: Draft, seats: int,
                         admitted: bool, newTable: Id, id: Id)
    requires AllPlain(db.bookings)
    ensures var o := Create(db, today, table, number, draft, seats, admitted, newTable, id);
            o.Done? ==> AllPlain(o.db.bookings)
  {
    var found := Resolve(db, table, number);
    if found.Some? {
      PlaceStaysPlain(db, today, found.value, draft, Pending, id);
    } else if number.Some? {
      PlaceStaysPlain(WithTable(db, newTable, number.value, seats), today, newTable, draft, Pending, id);
    }
  }

  lemma PlaceStaysPlain(db: Db, today: int, table: Id, draft: Draft, status: BookingStatus, id: Id)
    requires AllPlain(db.bookings)
    ensures var o := Place(db, today, table, {table}, map[], draft, status, id); o.Done? ==> AllPlain(o.db.bookings)
  {
  }

  lemma WaiterMovesStayPlain(db: Db, today: int, id: Id, next: Id)
    requires AllPlain(db.bookings)
    ensures var o := WaiterTransfer(db, today, id, next); o.Done? ==> AllPlain(o.db.bookings)
  {
  }

  lemma StaffMovesStayPlain(db: Db, today: int, id: Id, next: Id)
    requires AllPlain(db.bookings)
    ensures var o := TransferBooking(db, today, id, next); o.Done? ==> AllPlain(o.db.bookings)
  {
  }

  lemma ChangesStayPlain(db: Db, today: int, request: Id, next: Id)
    requires AllPlain(db.bookings)
    ensures var o := ApproveTableChange(db, today, request, next); o.Done? ==> AllPlain(o.db.bookings)
  {
  }

  /** Without banquets, approved new times keep the promise too. */
  lemma {:induction false} RunsWithoutBanquetsNeverDoubleBook(db: Db, run: seq<Dated>)
    requires Sound(db.bookings) && AllPlain(db.bookings)
    requires forall d :: d in run ==> !d.event.BanquetBooked?
    ensures Sound(Exec(db, run).bookings) && AllPlain(Exec(db, run).bookings)
  {
    if run != [] {
      var n := |run| - 1;
      RunsWithoutBanquetsNeverDoubleBook(db, run[..n]);
      var before, last := Exec(db, run[..n]), run[n];
      StepKeepsPlain(before, last.today, last.event);
      if last.event.RescheduleApproved? {
        PlainRescheduleKeepsSound(before, last.today, last.event.request);
      } else {
        StepKeepsSound(before, last.today, last.event);
      }
    }
  }

  // ----- Bookings and blocks

  lemma StepKeepsApart(db: Db, today: int, e: Event)
    requires Apart(db) && !e.RescheduleApproved? && !e.WaiterMoves?
    requires e.GuestBooks? ==> !SlipsPast(db, e.table, e.number)
    ensures Apart(Step(db, today, e))
  {
    match e
    case GuestBooks(table, number, draft, seats, admitted, newTable, id) =>
      GuardedCreateKeepsApart(db, today, table, number, draft, seats, admitted, newTable, id);
    case StaffBooks(table, draft, admitted, id) =>
      if table.Some? && Bookable(db, today, table, None, draft) {
        GuardedManualKeepsApart(db, today, table.value, draft, admitted, id);
      }
    case BanquetBooked(tables, primary, draft, admitted, id) =>
      if (forall t :: t in tables ==> Bookable(db, today, Some(t), None, draft))
        && CreateManualBanquet(db, today, tables, primary, draft, admitted, id).Done?
      {
        GuardedBanquetKeepsApart(db, today, tables, primary, draft, admitted, id);
      }
    case Transition(id, _, transition) =>
      if Transit(db, today, id, transition).Done? { TransitKeepsApart(db, today, id, transition); }
    case Closing(id, closing) => if Close(db, today, id, closing).Done? { CloseKeepsApart(db, today, id, closing); }
    case StaffMoves(id, next) => TransferKeepsApart(db, today, id, next);
    case TableChangeApproved(request, next) => ApproveChangeKeepsApart(db, today, request, next);
    case BlockPlanned(target, date, start, end, reasoned, id) =>
      CreateBlockKeepsApart(db, today, target, date, start, end, reasoned, id);
    case BlockRemoved(id) => RemoveBlockKeepsApart(db, id);
    case _ =>
  }

  /** A guest's request names its table by nothing but space. */
  predicate NamesBlank(e: Event) { e.GuestBooks? && Named(e.number) && Blank(e.number) }

  /** No run puts a booking into planned unavailability, or plans any over a booking, unless a waiter moves
      guests, a new time is approved, or a guest names a table by nothing but space. */
  lemma {:induction false} RunsKeepBookingsOutOfBlocks(db: Db, run: seq<Dated>)
    requires Apart(db)
    requires forall d :: d in run ==> !d.event.RescheduleApproved? && !d.event.WaiterMoves? && !NamesBlank(d.event)
    ensures Apart(Exec(db, run))
  {
    if run != [] {
      var n := |run| - 1;
      RunsKeepBookingsOutOfBlocks(db, run[..n]);
      StepKeepsApart(Exec(db, run[..n]), run[n].today, run[n].event);
    }
  }

  /** Without banquets, approved new times stay out of blocks as well. */
  lemma {:induction false} RunsWithoutBanquetsKeepOutOfBlocks(db: Db, run: seq<Dated>)
    requires Apart(db) && AllPlain(db.bookings)
    requires forall d :: d in run ==> !d.event.BanquetBooked? && !d.event.WaiterMoves? && !NamesBlank(d.event)
    ensures Apart(Exec(db, run)) && AllPlain(Exec(db, run).bookings)
  {
    if run != [] {
      var n := |run| - 1;
      RunsWithoutBanquetsKeepOutOfBlocks(db, run[..n]);
      var before, last := Exec(db, run[..n]), run[n];
      StepKeepsPlain(before, last.today, last.event);
      if last.event.RescheduleApproved? {
        PlainRescheduleKeepsApart(before, last.today, last.event.request);
      } else {
        StepKeepsApart(before, last.today, last.event);
      }
    }
  }

  // ----- Every run, exactly

  /** The slot a granted request moves its booking to is one the other operations would have given it, at every
      table of the booking; all other events pass. */
  ghost predicate FitsOthers(db: Db, today: int, e: Event) {
    e.RescheduleApproved? && ApproveReschedule(db, today, e.request).Done? ==>
      var move := db.moves[e.request];
      Written(db.bookings[move.booking]) && Requested(move).Some? ==>
        FullyClear(db.bookings, move.booking, move.date, Requested(move).value)
  }

  lemma SoundStepExactly(db: Db, today: int, e: Event)
    requires Sound(db.bookings)
    ensures Sound(Step(db, today, e).bookings) <==> FitsOthers(db, today, e)
  {
    if !e.RescheduleApproved? {
      StepKeepsSound(db, today, e);
    } else if ApproveReschedule(db, today, e.request).Done? {
      RescheduleExactly(db, today, e.request);
    }
  }

  /** A run keeps every table promised at most once throughout exactly when each new time it grants fits. */
  lemma {:induction false} RunsAreSoundExactly(db: Db, run: seq<Dated>)
    requires Sound(db.bookings)
    ensures (forall k :: 0 <= k <= |run| ==> Sound(Exec(db, run[..k]).bookings))
            <==> (forall k :: 0 <= k < |run| ==> FitsOthers(Exec(db, run[..k]), run[k].today, run[k].event))
  {
    if forall k :: 0 <= k <= |run| ==> Sound(Exec(db, run[..k]).bookings) {
      forall k | 0 <= k < |run| ensures FitsOthers(Exec(db, run[..k]), run[k].today, run[k].event) {
        ExecPrefix(db, run, k);
        assert Sound(Exec(db, run[..k]).bookings) && Sound(Exec(db, run[..k + 1]).bookings);
        SoundStepExactly(Exec(db, run[..k]), run[k].today, run[k].event);
      }
    }
    if forall k :: 0 <= k < |run| ==> FitsOthers(Exec(db, run[..k]), run[k].today, run[k].event) {
      forall k | 0 <= k <= |run| ensures Sound(Exec(db, run[..k]).bookings) {
        FittingRunIsSound(db, run, k);
      }
    }
  }

  lemma ExecPrefix(db: Db, run: seq<Dated>, k: nat)
    requires k < |run|
    ensures Exec(db, run[..k + 1]) == Step(Exec(db, run[..k]), run[k].today, run[k].event)
  {
    assert run[..k + 1][..k] == run[..k];
  }

  lemma {:induction false} FittingRunIsSound(db: Db, run: seq<Dated>, n: nat)
    requires Sound(db.bookings) && n <= |run|
    requires forall k :: 0 <= k < n ==> FitsOthers(Exec(db, run[..k]), run[k].today, run[k].event)
    ensures Sound(Exec(db, run[..n]).bookings)
  {
    if n > 0 {
      FittingRunIsSound(db, run, n - 1);
      ExecPrefix(db, run, n - 1);
      SoundStepExactly(Exec(db, run[..n - 1]), run[n - 1].today, run[n - 1].event);
    }
  }

  /** No block covers the slot at any table a waiter or a granted request moves the booking to; all other events
      pass. */
  ghost predicate AvoidsBlocks(db: Db, today: int, e: Event) {
    && (e.GuestBooks? && Handle(db, today, e).Done? ==> LandsClear(db, e.table, e.number, e.draft))
    && (e.WaiterMoves? && WaiterTransfer(db, today, e.id, e.next).Done? ==>
          var b := db.bookings[e.id];
          Written(b) ==> Unblocked(db.blocks, b.date, e.next, ZoneOf(db.tables, e.next), b.time.value, End(b)))
    && (e.RescheduleApproved? && ApproveReschedule(db, today, e.request).Done? ==>
          var b := AtNewTime(db.bookings[db.moves[e.request].booking], db.moves[e.request]);
          Written(b) ==> forall t :: t in b.Tables() ==>
            Unblocked(db.blocks, b.date, t, ZoneOf(db.tables, t), b.time.value, End(b)))
  }

  lemma ApartStepExactly(db: Db, today: int, e: Event)
    requires Apart(db)
    ensures Apart(Step(db, today, e)) <==> AvoidsBlocks(db, today, e)
  {
    if e.GuestBooks? {
      if Handle(db, today, e).Done? {
        GuestRequestExactly(db, today, e.table, e.number, e.draft, e.seats, e.admitted, e.newTable, e.id);
      }
    } else if e.WaiterMoves? {
      if WaiterTransfer(db, today, e.id, e.next).Done? { WaiterTransferExactly(db, today, e.id, e.next); }
    } else if e.RescheduleApproved? {
      if ApproveReschedule(db, today, e.request).Done? { RescheduleBlocksExactly(db, today, e.request); }
    } else {
      StepKeepsApart(db, today, e);
    }
  }

  /** A run keeps bookings out of planned unavailability throughout exactly when its waiters' moves and granted
      new times do. */
  lemma {:induction false} RunsAreApartExactly(db: Db, run: seq<Dated>)
    requires Apart(db)
    ensures (forall k :: 0 <= k <= |run| ==> Apart(Exec(db, run[..k])))
            <==> (forall k :: 0 <= k < |run| ==> AvoidsBlocks(Exec(db, run[..k]), run[k].today, run[k].event))
  {
    if forall k :: 0 <= k <= |run| ==> Apart(Exec(db, run[..k])) {
      forall k | 0 <= k < |run| ensures AvoidsBlocks(Exec(db, run[..k]), run[k].today, run[k].event) {
        ExecPrefix(db, run, k);
        assert Apart(Exec(db, run[..k])) && Apart(Exec(db, run[..k + 1]));
        ApartStepExactly(Exec(db, run[..k]), run[k].today, run[k].event);
      }
    }
    if forall k :: 0 <= k < |run| ==> AvoidsBlocks(Exec(db, run[..k]), run[k].today, run[k].event) {
      forall k | 0 <= k <= |run| ensures Apart(Exec(db, run[..k])) {
        AvoidingRunIsApart(db, run, k);
      }
    }
  }

  lemma {:induction false} AvoidingRunIsApart(db: Db, run: seq<Dated>, n: nat)
    requires Apart(db) && n <= |run|
    requires forall k :: 0 <= k < n ==> AvoidsBlocks(Exec(db, run[..k]), run[k].today, run[k].event)
    ensures Apart(Exec(db, run[..n]))
  {
    if n > 0 {
      AvoidingRunIsApart(db, run, n - 1);
      ExecPrefix(db, run, n - 1);
      ApartStepExactly(Exec(db, run[..n - 1]), run[n - 1].today, run[n - 1].event);
    }
  }

  // ----- What a table's holder can rely on

  /** From empty books, two active bookings at one table on one date never share a minute, cleaning included. */
  lemma TwoBookingsNeverShareAMinute(db: Db, run: seq<Dated>, i: Id, j: Id, table: Id, minute: int)
    requires db.bookings == map[]
    requires forall d :: d in run ==> !d.event.RescheduleApproved?
    requires var after := Exec(db, run).bookings;
             && i in after && j in after && i != j && after[i].date == after[j].date
             && after[i].Holds(table, after[i].date) && after[j].Holds(table, after[j].date)
    ensures var after := Exec(db, run).bookings;
            && Written(after[i]) && Written(after[j])
            && !(after[i].time.value <= minute < End(after[i]) && after[j].time.value <= minute < End(after[j]))
  {
    RunsNeverDoubleBook(db, run);
    var after := Exec(db, run).bookings;
    assert !Collide(after[i], after[j]);
  }

  // ----- What is over stays over

  /** A repeated approval or arrival changes nothing more. */
  lemma RepeatedTransitionIsNoOp(db: Db, today: int, id: Id, transition: Transition, later: int)
    requires Transit(db, today, id, transition).Done?
    ensures var once := Transit(db, today, id, transition).db; Transit(once, later, id, transition) == Done(once)
  {
  }

  ghost predicate Over(bookings: map<Id, Booking>, id: Id) { id in bookings && !bookings[id].Active() }

  lemma StepKeepsOver(db: Db, today: int, e: Event, id: Id)
    requires Over(db.bookings, id)
    ensures Over(Step(db, today, e).bookings, id)
  {
    match e
    case GuestBooks(table, number, draft, seats, admitted, newTable, other) =>
      if GuestRequest(db, today, table, number, draft, seats, admitted, newTable, other).Done? {
        CreateKeepsOver(db, today, table, Submitted(db, number).value, draft, seats, admitted, newTable, other, id);
      }
    case StaffBooks(table, draft, _, other) =>
      if table.Some? {
        PlaceKeepsOver(db, today, table.value, {table.value}, map[], draft.(device := None), Approved, other, id);
      }
    case BanquetBooked(tables, primary, draft, _, other) =>
      PlaceKeepsOver(db, today, primary, ToSet(tables), Assigned(ToSet(tables), primary), draft.(device := None),
                     Approved, other, id);
    case Transition(other, _, transition) =>
      if Transit(db, today, other, transition).Done? { TransitChangesOneRow(db, today, other, transition); }
    case Closing(other, closing) =>
      if Close(db, today, other, closing).Done? { CloseChangesOneRow(db, today, other, closing); }
    case WaiterMoves(other, next) => if other == id { assert WaiterTransfer(db, today, other, next) == Refused; }
    case StaffMoves(other, next) => if other == id { assert TransferBooking(db, today, other, next) == Refused; }
    case TableChangeApproved(request, next) =>
      if ApproveTableChange(db, today, request, next).Done? { ChangeKeepsOver(db, today, request, next, id); }
    case RescheduleApproved(request) =>
      if ApproveReschedule(db, today, request).Done? { RescheduleKeepsOver(db, today, request, id); }
    case _ =>
  }

  lemma PlaceKeepsOver(db: Db, today: int, table: Id, ids: set<Id>, assignments: map<Id, bool>, draft: Draft,
                       status: BookingStatus, other: Id, id: Id)
    requires Over(db.bookings, id)
    ensures var o := Place(db, today, table, ids, assignments, draft, status, other);
            o.Done? ==> Over(o.db.bookings, id)
  {
  }

  lemma CreateKeepsOver(db: Db, today: int, table: Option<Id>, number: Option<string>, draft: Draft, seats: int,
                        admitted: bool, newTable: Id, other: Id, id: Id)
    requires Over(db.bookings, id)
    ensures var o := Create(db, today, table, number, draft, seats, admitted, newTable, other);
            o.Done? ==> Over(o.db.bookings, id)
  {
  }

  lemma ChangeKeepsOver(db: Db, today: int, request: Id, next: Id, id: Id)
    requires Over(db.bookings, id) && ApproveTableChange(db, today, request, next).Done?
    ensures Over(ApproveTableChange(db, today, request, next).db.bookings, id)
  {
  }

  lemma RescheduleKeepsOver(db: Db, today: int, request: Id, id: Id)
    requires Over(db.bookings, id) && ApproveReschedule(db, today, request).Done?
    ensures Over(ApproveReschedule(db, today, request).db.bookings, id)
  {
  }

  /** A rejected, cancelled or completed booking never holds a table again. */
  lemma {:induction false} OverForGood(db: Db, run: seq<Dated>, id: Id)
    requires Over(db.bookings, id)
    ensures Over(Exec(db, run).bookings, id)
  {
    if run != [] {
      var n := |run| - 1;
      OverForGood(db, run[..n], id);
      StepKeepsOver(Exec(db, run[..n]), run[n].today, run[n].event, id);
    }
  }
}
