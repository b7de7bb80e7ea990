/** What each booking operation leaves behind, said without its steps: whose row changed, to what, and what
    the tables then show. */
module BookingEffects {
  import opened Basics
  import opened BookingTime
  import opened Bookings
  import opened BookingSlots

  /** No row but one differs. */
  ghost predicate OnlyRow(before: map<Id, Booking>, after: map<Id, Booking>, id: Id) {
    && before.Keys + {id} == after.Keys
    && forall j :: j in before && j != id ==> after[j] == before[j]
  }

  /** Only statuses of these tables may differ, and never that of a closed one. */
  ghost predicate OnlyStatuses(before: map<Id, Table>, after: map<Id, Table>, ids: set<Id>) {
    && before.Keys == after.Keys
    && (forall t :: t in before ==> after[t] == before[t].(status := after[t].status))
    && (forall t :: t in before && (t !in ids || before[t].status == Closed) ==> after[t] == before[t])
  }

  /** Some active booking holds the table on the date. */
  ghost predicate Held(bookings: map<Id, Booking>, t: Id, date: int) {
    exists j :: j in bookings && bookings[j].Holds(t, date)
  }

  lemma MarkTouches(tables: map<Id, Table>, ids: set<Id>, status: TableStatus, date: int, today: int)
    ensures OnlyStatuses(tables, MarkToday(tables, ids, status, date, today), if date == today then ids else {})
  {
  }

  lemma SynchronizeTouches(tables: map<Id, Table>, bookings: map<Id, Booking>, ids: set<Id>, date: int, release: bool)
    ensures OnlyStatuses(tables, Synchronized(tables, bookings, ids, date, release), ids)
  {
  }

  /** A recomputed table is free exactly when no active booking holds it that day. */
  lemma RecomputedTable(tables: map<Id, Table>, bookings: map<Id, Booking>, ids: set<Id>, date: int, release: bool,
                        t: Id)
    requires t in tables && t in ids && tables[t].status != Closed && (release || Quiet(tables[t].status))
    ensures var after := Synchronized(tables, bookings, ids, date, release)[t];
            && Quiet(after.status)
            && (after.status == Free <==> !Held(bookings, t, date))
            && (after.status == Reserved <==>
                exists j :: j in bookings && bookings[j].Holds(t, date) && bookings[j].status == Approved)
  {
  }

  /** A new booking adds one row and colours only today's tables of its own. */
  lemma PlacedRow(db: Db, today: int, table: Id, ids: set<Id>, assignments: map<Id, bool>, draft: Draft,
                  status: BookingStatus, id: Id)
    requires Place(db, today, table, ids, assignments, draft, status, id).Done?
    ensures var after := Place(db, today, table, ids, assignments, draft, status, id).db;
            && id !in db.bookings && OnlyRow(db.bookings, after.bookings, id)
            && after.bookings[id] == NewBooking(draft, table, assignments, status)
            && OnlyStatuses(db.tables, after.tables, if draft.date == today then ids else {})
            && after.blocks == db.blocks
  {
    MarkTouches(db.tables, ids, if status == Approved then Reserved else Awaiting, draft.date, today);
  }

  /** It holds exactly its tables, at the drafted date and minutes, for the normalized length and the cleaning. */
  lemma PlacedSlot(draft: Draft, table: Id, assignments: map<Id, bool>, status: BookingStatus)
    requires ParseTime(draft.time).Some?
    ensures var b := NewBooking(draft, table, assignments, status);
            && b.Tables() == {table} + assignments.Keys && b.date == draft.date && b.status == status && !b.checkedIn
            && Written(b) && b.time == ParseTime(draft.time)
            && End(b) == b.time.value + NormalizeDuration(draft.length) + CLEANUP
  {
    NewBookingIsWritten(draft, table, assignments, status);
  }

  /** A banquet holds exactly the tables asked for, two or more, and marks only its own table as the primary. */
  lemma PlacedBanquet(db: Db, today: int, tables: seq<Id>, primary: Id, draft: Draft, admitted: bool, id: Id)
    requires CreateManualBanquet(db, today, tables, primary, draft, admitted, id).Done?
    ensures var b := CreateManualBanquet(db, today, tables, primary, draft, admitted, id).db.bookings[id];
            && b.assignments.Keys == b.Tables() == ToSet(tables) && |ToSet(tables)| == |tables| >= 2
            && b.table == Some(primary) && b.status == Approved
            && forall t :: t in b.assignments ==> (b.assignments[t] <==> t == primary)
  {
    var ids := ToSet(tables);
    PlacedRow(db, today, primary, ids, Assigned(ids, primary), draft.(device := None), Approved, id);
  }

  /** A moved booking sits at the next table alone and keeps its date, time, length and status. */
  ghost predicate MovedTo(was: Booking, b: Booking, next: Id) {
    && b.Tables() == {next} && b.table == Some(next) && b.assignments == map[next := true]
    && b.date == was.date && b.time == was.time && b.stored == was.stored && b.remarks == was.remarks
    && b.status == was.status
    && b.guests == was.guests && b.phone == was.phone && b.device == was.device
  }

  lemma TransferredBooking(db: Db, today: int, id: Id, next: Id)
    requires TransferBooking(db, today, id, next).Done?
    ensures var after := TransferBooking(db, today, id, next).db;
            && OnlyRow(db.bookings, after.bookings, id) && MovedTo(db.bookings[id], after.bookings[id], next)
            && after.bookings[id].checkedIn == db.bookings[id].checkedIn
            && after.tables == (if db.bookings[id].date == today
                                then Synchronized(db.tables, after.bookings, {db.bookings[id].table.value} + {next},
                                                  today, false)
                                else db.tables)
  {
  }

  /** Today, the table left, if nobody is at it, is free iff no other booking holds it. */
  lemma TransferredTables(db: Db, today: int, id: Id, next: Id, left: Id)
    requires TransferBooking(db, today, id, next).Done? && db.bookings[id].table == Some(left)
    requires db.bookings[id].date == today
    requires left in db.tables && Quiet(db.tables[left].status)
    ensures var after := TransferBooking(db, today, id, next).db;
            && OnlyStatuses(db.tables, after.tables, {left} + {next})
            && (after.tables[left].status == Free <==> !Held(after.bookings, left, today))
  {
    var after := TransferBooking(db, today, id, next).db;
    TransferredBooking(db, today, id, next);
    SynchronizeTouches(db.tables, after.bookings, {left} + {next}, today, false);
    RecomputedTable(db.tables, after.bookings, {left} + {next}, today, false, left);
  }

  lemma WaiterMovedBooking(db: Db, today: int, id: Id, next: Id)
    requires WaiterTransfer(db, today, id, next).Done?
    ensures var after := WaiterTransfer(db, today, id, next).db; var b := db.bookings[id];
            && OnlyRow(db.bookings, after.bookings, id) && MovedTo(b, after.bookings[id], next)
            && after.bookings[id].status == Approved && after.bookings[id].date == today
            && !after.bookings[id].checkedIn
            && after == Reseated(db, today, id, after.bookings[id], b.table.value, next,
                                 b.checkedIn && db.tables[b.table.value].status in {Occupied, Cleaning})
  {
  }

  /** The table a waiter moves guests to is reserved; the one they left stays in use unless they had arrived there. */
  lemma WaiterMovedTables(db: Db, today: int, id: Id, next: Id, left: Id)
    requires WaiterTransfer(db, today, id, next).Done? && db.bookings[id].table == Some(left)
    ensures var after := WaiterTransfer(db, today, id, next).db;
            && after.tables[next].status == Reserved && OnlyStatuses(db.tables, after.tables, {left} + {next})
            && (db.tables[left].status in {Occupied, Cleaning} ==>
                  (after.tables[left].status == db.tables[left].status <==> !db.bookings[id].checkedIn))
  {
    var b, after := db.bookings[id], WaiterTransfer(db, today, id, next).db;
    var release := b.checkedIn && db.tables[left].status in {Occupied, Cleaning};
    var first := Synchronized(db.tables, after.bookings, {left}, today, release);
    WaiterMovedBooking(db, today, id, next);
    SynchronizeTouches(db.tables, after.bookings, {left}, today, release);
    SynchronizeTouches(first, after.bookings, {next}, today, false);
    assert after.bookings[id].Holds(next, today);
    RecomputedTable(first, after.bookings, {next}, today, false, next);
    if release { RecomputedTable(db.tables, after.bookings, {left}, today, release, left); }
  }

  lemma ChangedTable(db: Db, today: int, request: Id, next: Id)
    requires ApproveTableChange(db, today, request, next).Done?
    ensures var after := ApproveTableChange(db, today, request, next).db; var id := db.changes[request].booking;
            && OnlyRow(db.bookings, after.bookings, id) && MovedTo(db.bookings[id], after.bookings[id], next)
            && OnlyStatuses(db.tables, after.tables,
                            if db.bookings[id].date == today then {db.bookings[id].table.value, next} else {})
  {
  }

  /** A new time moves the booking to the requested date and minutes and keeps everything else of it. */
  lemma RescheduledBooking(db: Db, today: int, request: Id)
    requires ApproveReschedule(db, today, request).Done?
    ensures var after := ApproveReschedule(db, today, request).db; var move := db.moves[request];
            && OnlyRow(db.bookings, after.bookings, move.booking) && after.tables == db.tables
            && db.bookings[move.booking].Active()
            && Requested(move).Some? && after.bookings[move.booking] == AtNewTime(db.bookings[move.booking], move)
            && GuestFree(db.bookings, move.date, db.bookings[move.booking].phone, db.bookings[move.booking].device,
                         Some(move.booking))
  {
  }

  /** Approval and arrival: every table of the booking was bookable and clear, the row is approved, and today's
      quiet tables show it. */
  lemma TransitedBooking(db: Db, today: int, id: Id, transition: Transition)
    requires Transit(db, today, id, transition).Done? && Transit(db, today, id, transition).db != db
    ensures var b, after := db.bookings[id], Transit(db, today, id, transition).db;
            && OnlyRow(db.bookings, after.bookings, id)
            && after.bookings[id] == b.(status := Approved, checkedIn := b.checkedIn || transition == CheckIn)
            && OnlyStatuses(db.tables, after.tables, if b.date == today then b.Tables() else {})
    ensures var b, after := db.bookings[id], Transit(db, today, id, transition).db;
            forall t :: t in b.Tables() ==>
              && CanBeBooked(db, t)
              && (transition == CheckIn && b.date == today ==>
                  Quiet(db.tables[t].status) && after.tables[t].status == Occupied)
  {
    MarkTouches(db.tables, db.bookings[id].Tables(), if transition == Approve then Reserved else Occupied,
                db.bookings[id].date, today);
    forall t | t in db.bookings[id].Tables() ensures MayProceed(db, today, id, t, transition) {
    }
  }

  /** A closing ends the booking and touches nothing else but today's tables it held. */
  lemma ClosedBooking(db: Db, today: int, id: Id, closing: Closing)
    requires Close(db, today, id, closing).Done?
    ensures var after := Close(db, today, id, closing).db; var b := db.bookings[id];
            && OnlyRow(db.bookings, after.bookings, id) && KeepsSlot(b, after.bookings[id])
            && !after.bookings[id].Active()
            && OnlyStatuses(db.tables, after.tables, if b.date == today then b.Tables() else {})
  {
    CloseChangesOneRow(db, today, id, closing);
    SynchronizeTouches(db.tables, Close(db, today, id, closing).db.bookings, db.bookings[id].Tables(), today,
                       closing == Complete);
  }

  /** Such a table, not closed and, short of completion, not in use, is then free iff no other booking holds it. */
  lemma ClosedBookingFreesTable(db: Db, today: int, id: Id, closing: Closing, t: Id)
    requires Close(db, today, id, closing).Done? && db.bookings[id].status != Completed
    requires db.bookings[id].date == today && t in db.bookings[id].Tables() && t in db.tables
    requires db.tables[t].status != Closed
    requires closing == Complete || Quiet(db.tables[t].status)
    ensures var after := Close(db, today, id, closing).db;
            after.tables[t].status == Free <==> !Held(after.bookings, t, today)
  {
    CloseChangesOneRow(db, today, id, closing);
    RecomputedTable(db.tables, Close(db, today, id, closing).db.bookings, db.bookings[id].Tables(), today,
                    closing == Complete, t);
  }

  /** A planned block says what was asked; nothing else changes. */
  lemma PlannedBlock(db: Db, today: int, target: Option<Target>, date: int, start: Option<string>,
                     end: Option<string>, reasoned: bool, id: Id)
    requires CreateBlock(db, today, target, date, start, end, reasoned, id).Done?
    ensures var after := CreateBlock(db, today, target, date, start, end, reasoned, id).db;
            && after == db.(blocks := after.blocks) && id !in db.blocks
            && after.blocks == db.blocks[id := after.blocks[id]]
            && after.blocks[id].date == date && Some(after.blocks[id].target) == target
            && forall from, until :: after.blocks[id].Covers(from, until) <==>
                 start.None? || Overlap(ParseTime(start.value).value, ParseTime(end.value).value, from, until)
  {
    if start.Some? && end.Some? {
      SecondsDoNotMoveTime(start.value);
      SecondsDoNotMoveTime(end.value);
    }
  }
}
