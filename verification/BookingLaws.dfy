/** When each booking operation is accepted and what it then leaves, said of the rows' fields alone: statuses, tables,
    minutes and guests. */
module BookingLaws {
  import opened Basics
  import opened Text
  import opened BookingTime
  import opened Bookings

  // ----- Rows, tables and minutes

  predicate InForce(b: Booking) { b.status == Pending || b.status == Approved }

  /** The table is the booking's own or assigned to it. */
  predicate At(b: Booking, t: Id) { b.table == Some(t) || t in b.assignments }

  /** Neither in use nor closed. */
  predicate Settable(status: TableStatus) { status == Free || status == Awaiting || status == Reserved }

  /** There for guests to book, and so is its zone. */
  predicate Ready(db: Db, t: Id) {
    && t in db.tables && db.tables[t].visible && db.tables[t].status != Closed
    && (db.tables[t].zone.Some? && db.tables[t].zone.value in db.zones ==>
          var zone := db.zones[db.tables[t].zone.value]; zone.visible && !zone.closed)
  }

  predicate During(minute: int, start: int, until: int) { start <= minute < until }

  ghost predicate ShareAMinute(start: int, until: int, otherStart: int, otherUntil: int) {
    exists minute :: During(minute, start, until) && During(minute, otherStart, otherUntil)
  }

  lemma OverlapMeans(start: int, until: int, otherStart: int, otherUntil: int)
    requires start < until && otherStart < otherUntil
    ensures Overlap(start, until, otherStart, otherUntil) <==> ShareAMinute(start, until, otherStart, otherUntil)
  {
    var later := if start < otherStart then otherStart else start;
    assert Overlap(start, until, otherStart, otherUntil) ==>
             During(later, start, until) && During(later, otherStart, otherUntil);
  }

  /** A fixed quarter of an hour after every stay is for cleaning. */
  ghost predicate TakenAt(b: Booking, reader: Reader, start: int, until: int) {
    var minutes := Duration(reader, b.stored, b.remarks);
    || b.time.None? || minutes.None?
    || ShareAMinute(start, until, b.time.value, b.time.value + minutes.value + 15)
  }

  lemma ClashMeans(b: Booking, reader: Reader, start: int, until: int)
    requires start < until
    ensures b.Clashes(reader, start, until) <==> TakenAt(b, reader, start, until)
  {
    if b.time.Some? && Duration(reader, b.stored, b.remarks).Some? {
      OverlapMeans(start, until, b.time.value, b.time.value + Duration(reader, b.stored, b.remarks).value + 15);
    }
  }

  /** Some other booking in force holds the table then, or cannot be read. */
  ghost predicate TimeTaken(bookings: map<Id, Booking>, t: Id, date: int, except: Option<Id>, reader: Reader,
                            start: int,
                            until: int) {
    exists id :: id in bookings && Some(id) != except && InForce(bookings[id]) && bookings[id].date == date
      && At(bookings[id], t) && TakenAt(bookings[id], reader, start, until)
  }

  lemma ClearMeans(bookings: map<Id, Booking>, t: Id, date: int, except: Option<Id>, reader: Reader, start: int,
                   until: int)
    requires start < until
    ensures Clear(bookings, t, date, except, reader, start, until) <==>
            !TimeTaken(bookings, t, date, except, reader, start, until)
  {
    forall id | id in bookings
      ensures bookings[id].Clashes(reader, start, until) <==> TakenAt(bookings[id], reader, start, until)
    {
      ClashMeans(bookings[id], reader, start, until);
    }
  }

  /** A block applies to the table, itself or through its zone, and is for the whole day, or cannot be read, or starts
      before the slot ends and ends after it starts. */
  ghost predicate BlockedAt(db: Db, t: Id, date: int, start: int, until: int)
    requires t in db.tables
  {
    exists k :: k in db.blocks && db.blocks[k].date == date
      && (db.blocks[k].target == TableTarget(t)
          || exists z :: db.tables[t].zone == Some(z) && db.blocks[k].target == ZoneTarget(z))
      && (db.blocks[k].span == None
          || db.blocks[k].span.value.0.None? || db.blocks[k].span.value.1.None?
          || (db.blocks[k].span.value.0.value < until && start < db.blocks[k].span.value.1.value))
  }

  lemma UnblockedMeans(db: Db, t: Id, date: int, start: int, until: int)
    requires t in db.tables
    ensures Unblocked(db.blocks, date, t, db.tables[t].zone, start, until) <==> !BlockedAt(db, t, date, start, until)
  {
  }

  /** Another booking in force on the date is for the same phone or the same device. */
  ghost predicate GuestTaken(bookings: map<Id, Booking>, date: int, phone: Option<nat>, device: Option<nat>,
                             except: Option<Id>) {
    exists id :: id in bookings && Some(id) != except && InForce(bookings[id]) && bookings[id].date == date
      && ((phone != None && bookings[id].phone == phone) || (device != None && bookings[id].device == device))
  }

  lemma GuestFreeMeans(bookings: map<Id, Booking>, date: int, phone: Option<nat>, device: Option<nat>,
                       except: Option<Id>)
    ensures GuestFree(bookings, date, phone, device, except) <==> !GuestTaken(bookings, date, phone, device, except)
  {
  }

  // ----- What the tables show

  /** Today these tables take the status, unless in use or closed; nothing else of any table changes. */
  ghost predicate Claimed(before: map<Id, Table>, after: map<Id, Table>, ids: set<Id>, status: TableStatus, date: int,
                          today: int) {
    && before.Keys == after.Keys
    && forall t :: t in before ==>
         after[t] == if date == today && t in ids && Settable(before[t].status) then before[t].(status := status)
                     else before[t]
  }

  /** What the day's bookings make of a table. */
  ghost predicate Shows(bookings: map<Id, Booking>, t: Id, date: int, status: TableStatus) {
    var approved := exists id :: id in bookings && bookings[id].status == Approved && bookings[id].date == date
                                 && At(bookings[id], t);
    var pending := exists id :: id in bookings && bookings[id].status == Pending && bookings[id].date == date
                                && At(bookings[id], t);
    status == if approved then Reserved else if pending then Awaiting else Free
  }

  /** These tables show what the day's bookings make of them, unless closed or, without release, in use; nothing else
      of any table changes. */
  ghost predicate Recounted(before: map<Id, Table>, after: map<Id, Table>, bookings: map<Id, Booking>, ids: set<Id>,
                            date: int, release: bool) {
    && before.Keys == after.Keys
    && forall t :: t in before ==>
         if t in ids && before[t].status != Closed && (release || Settable(before[t].status))
         then after[t] == before[t].(status := after[t].status) && Shows(bookings, t, date, after[t].status)
         else after[t] == before[t]
  }

  lemma MarkClaims(tables: map<Id, Table>, ids: set<Id>, status: TableStatus, date: int, today: int)
    ensures Claimed(tables, MarkToday(tables, ids, status, date, today), ids, status, date, today)
  {
  }

  lemma RemainingShows(bookings: map<Id, Booking>, t: Id, date: int)
    ensures Shows(bookings, t, date, Remaining(bookings, t, date))
  {
    forall id | id in bookings
      ensures bookings[id].Holds(t, date) <==> InForce(bookings[id]) && bookings[id].date == date && At(bookings[id], t)
    {
    }
  }

  lemma SynchronizedRecounts(tables: map<Id, Table>, bookings: map<Id, Booking>, ids: set<Id>, date: int, release: bool)
    ensures Recounted(tables, Synchronized(tables, bookings, ids, date, release), bookings, ids, date, release)
  {
    forall t | t in tables && t in ids ensures Shows(bookings, t, date, Remaining(bookings, t, date)) {
      RemainingShows(bookings, t, date);
    }
  }

  // ----- Creation

  ghost predicate AllReady(db: Db, ids: set<Id>) { forall t :: t in ids ==> Ready(db, t) }

  /** All of these tables are free then, for the stay and the cleaning. */
  ghost predicate AllFree(bookings: map<Id, Booking>, ids: set<Id>, draft: Draft)
    requires ParseTime(draft.time).Some?
  {
    var start := ParseTime(draft.time).value;
    forall t :: t in ids ==>
      !TimeTaken(bookings, t, draft.date, None, BookingsReader, start, start + NormalizeDuration(draft.length) + 15)
  }

  /** A draft may take its tables: all of them there to be booked and free then, and the guest has no other booking that
      day. */
  ghost predicate MayBePlaced(db: Db, ids: set<Id>, draft: Draft)
    requires ParseTime(draft.time).Some?
  {
    && !GuestTaken(db.bookings, draft.date, draft.phone, draft.device, None)
    && AllReady(db, ids) && AllFree(db.bookings, ids, draft)
  }

  lemma DraftClearMeans(bookings: map<Id, Booking>, t: Id, draft: Draft)
    requires ParseTime(draft.time).Some?
    ensures var start := ParseTime(draft.time).value;
            Clear(bookings, t, draft.date, None, BookingsReader, start, draft.Until()) <==>
            !TimeTaken(bookings, t, draft.date, None, BookingsReader, start, start + NormalizeDuration(draft.length)
                       + 15)
  {
    ClearMeans(bookings, t, draft.date, None, BookingsReader, ParseTime(draft.time).value, draft.Until());
  }

  lemma ReadyMeans(db: Db, t: Id)
    ensures CanBeBooked(db, t) <==> Ready(db, t)
  {
  }

  lemma AllReadyMeans(db: Db, ids: set<Id>)
    ensures AllReady(db, ids) <==> !exists t :: t in ids && !CanBeBooked(db, t)
  {
    forall t | t in ids ensures CanBeBooked(db, t) <==> Ready(db, t) {
      ReadyMeans(db, t);
    }
  }

  lemma AllFreeMeans(bookings: map<Id, Booking>, ids: set<Id>, draft: Draft)
    requires ParseTime(draft.time).Some?
    ensures AllFree(bookings, ids, draft) <==>
            !exists t ::
              t in ids
              && !Clear(bookings, t, draft.date, None, BookingsReader, ParseTime(draft.time).value, draft.Until())
  {
    forall t | t in ids
      ensures Clear(bookings, t, draft.date, None, BookingsReader, ParseTime(draft.time).value, draft.Until()) <==>
              !TimeTaken(bookings, t, draft.date, None, BookingsReader, ParseTime(draft.time).value,
                         ParseTime(draft.time).value + NormalizeDuration(draft.length) + 15)
    {
      DraftClearMeans(bookings, t, draft);
    }
  }

  /** Exactly when a draft is placed. */
  lemma PlacedExactly(db: Db, today: int, table: Id, ids: set<Id>, assignments: map<Id, bool>, draft: Draft,
                      status: BookingStatus, id: Id)
    ensures Place(db, today, table, ids, assignments, draft, status, id).Done? <==>
            id !in db.bookings && ParseTime(draft.time).Some? && MayBePlaced(db, ids, draft)
  {
    AllReadyMeans(db, ids);
    GuestFreeMeans(db.bookings, draft.date, draft.phone, draft.device, None);
    if ParseTime(draft.time).Some? { AllFreeMeans(db.bookings, ids, draft); }
  }

  /** What a placed draft leaves: one row more, and today's tables claimed. */
  lemma PlacedLeaves(db: Db, today: int, table: Id, ids: set<Id>, assignments: map<Id, bool>, draft: Draft,
                     status: BookingStatus, id: Id)
    requires Place(db, today, table, ids, assignments, draft, status, id).Done?
    ensures var after := Place(db, today, table, ids, assignments, draft, status, id).db;
            && id in after.bookings && after.bookings == db.bookings[id := after.bookings[id]]
            && Claimed(db.tables, after.tables, ids, if status == Approved then Reserved
                       else Awaiting, draft.date, today)
            && after == db.(bookings := after.bookings, tables := after.tables)
    ensures var b := Place(db, today, table, ids, assignments, draft, status, id).db.bookings[id];
            && b.table == Some(table) && b.assignments == assignments && b.date == draft.date
            && b.time == ParseTime(draft.time) && b.stored == Some(NormalizeDuration(draft.length) as int)
            && b.status == status && !b.checkedIn && b.guests == draft.guests
            && b.phone == draft.phone && b.device == draft.device
  {
    MarkClaims(db.tables, ids, if status == Approved then Reserved else Awaiting, draft.date, today);
    AcceptedTimeIsStored(draft.time, ParseTime(draft.time).value);
  }

  // ----- Approval and arrival

  /** Every table of the booking lets it proceed: there to be booked and free then but for the booking itself, and for
      an arrival today not in use. */
  ghost predicate TableLetsProceed(db: Db, today: int, id: Id, t: Id, transition: Transition)
    requires id in db.bookings
  {
    var b := db.bookings[id];
    && Ready(db, t)
    && (transition == CheckIn && b.date == today ==> db.tables[t].status != Occupied && db.tables[t].status != Cleaning)
    && b.time.Some? && Duration(BookingsReader, b.stored, b.remarks).Some?
    && var until := b.time.value + Duration(BookingsReader, b.stored, b.remarks).value + 15;
       !TimeTaken(db.bookings, t, b.date, Some(id), BookingsReader, b.time.value, until)
  }

  lemma ProceedMeans(db: Db, today: int, id: Id, t: Id, transition: Transition)
    requires id in db.bookings
    ensures MayProceed(db, today, id, t, transition) <==> TableLetsProceed(db, today, id, t, transition)
  {
    var b := db.bookings[id];
    ReadyMeans(db, t);
    if b.time.Some? && b.Until(BookingsReader).Some? {
      ClearMeans(db.bookings, t, b.date, Some(id), BookingsReader, b.time.value, b.Until(BookingsReader).value);
    }
  }

  /** Asked for again: approved already, and for an arrival arrived. */
  predicate DoneAlready(b: Booking, transition: Transition) {
    b.status == Approved && (transition == Approve || b.checkedIn)
  }

  /** Exactly when an approval or arrival is accepted. */
  lemma TransitExactly(db: Db, today: int, id: Id, transition: Transition)
    ensures Transit(db, today, id, transition).Done? <==>
            && id in db.bookings && InForce(db.bookings[id]) && db.bookings[id].table.Some?
            && (DoneAlready(db.bookings[id], transition)
                || forall t :: At(db.bookings[id], t) ==> TableLetsProceed(db, today, id, t, transition))
  {
    if id in db.bookings {
      forall t ensures MayProceed(db, today, id, t, transition) <==> TableLetsProceed(db, today, id, t, transition) {
        ProceedMeans(db, today, id, t, transition);
      }
      assert forall t :: t in db.bookings[id].Tables() <==> At(db.bookings[id], t);
    }
  }

  /** What it leaves: nothing changed if asked for again; else the booking approved, with the arrival recorded, and
      today's tables claimed as reserved or occupied. */
  lemma TransitLeaves(db: Db, today: int, id: Id, transition: Transition)
    requires Transit(db, today, id, transition).Done?
    ensures DoneAlready(db.bookings[id], transition) ==> Transit(db, today, id, transition).db == db
    ensures !DoneAlready(db.bookings[id], transition) ==>
              var b, after := db.bookings[id], Transit(db, today, id, transition).db;
              && after == db.(bookings := after.bookings, tables := after.tables)
              && after.bookings == db.bookings[id := b.(status := Approved, checkedIn := transition == CheckIn
                                                        || b.checkedIn)]
              && Claimed(db.tables, after.tables, b.Tables(), if transition == CheckIn then Occupied
                         else Reserved, b.date,
                         today)
  {
    MarkClaims(db.tables, db.bookings[id].Tables(), if transition == Approve then Reserved else Occupied,
               db.bookings[id].date, today);
  }

  /** Under the locks it is accepted exactly when in addition the table, the date and all tables of the booking are
      still what was read before. */
  lemma CoordinatedExactly(db: Db, today: int, id: Id, seen: Option<Booking>, transition: Transition)
    ensures CoordinatedTransit(db, today, id, seen, transition).Done? <==>
            && id in db.bookings && seen.Some? && seen.value.table.Some?
            && seen.value.table == db.bookings[id].table && seen.value.date == db.bookings[id].date
            && (forall t :: At(seen.value, t) <==> At(db.bookings[id], t))
            && Transit(db, today, id, transition).Done?
    ensures CoordinatedTransit(db, today, id, seen, transition).Done? ==>
              CoordinatedTransit(db, today, id, seen, transition) == Transit(db, today, id, transition)
  {
    if id in db.bookings && seen.Some? {
      assert forall t :: t in db.bookings[id].Tables() <==> At(db.bookings[id], t);
      assert forall t :: t in seen.value.Tables() <==> At(seen.value, t);
      if forall t :: At(seen.value, t) <==> At(db.bookings[id], t) {
        assert seen.value.Tables() == db.bookings[id].Tables();
      }
    }
  }

  // ----- Closings

  /** The status each closing leaves. */
  function StatusAfter(closing: Closing): BookingStatus {
    match closing
    case Reject => Rejected
    case Cancel => Cancelled
    case NoShow => Cancelled
    case Complete => Completed
  }

  /** Exactly when a closing is accepted: the booking is there; for a no-show its guests have not arrived; for a
      completion it is in force, or completed already. */
  lemma ClosedExactly(db: Db, today: int, id: Id, closing: Closing)
    ensures Close(db, today, id, closing).Done? <==>
            && id in db.bookings
            && (closing == NoShow ==> !db.bookings[id].checkedIn)
            && (closing == Complete ==> InForce(db.bookings[id]) || db.bookings[id].status == Completed)
  {
  }

  /** What it leaves: completed again, nothing changed; else the booking with that status and otherwise as it was, and
      today's tables of it recounted, with completion even those in use. */
  lemma ClosedLeaves(db: Db, today: int, id: Id, closing: Closing)
    requires Close(db, today, id, closing).Done?
    ensures closing == Complete && db.bookings[id].status == Completed ==> Close(db, today, id, closing).db == db
    ensures !(closing == Complete && db.bookings[id].status == Completed) ==>
              var b, after := db.bookings[id], Close(db, today, id, closing).db;
              && after == db.(bookings := after.bookings, tables := after.tables)
              && after.bookings == db.bookings[id := b.(status := StatusAfter(closing))]
              && (b.date != today ==> after.tables == db.tables)
              && (b.date == today ==>
                    Recounted(db.tables, after.tables, after.bookings, b.Tables(), today, closing == Complete))
  {
    var b, after := db.bookings[id], Close(db, today, id, closing).db;
    SynchronizedRecounts(db.tables, after.bookings, b.Tables(), today, closing == Complete);
  }

  // ----- Moves to another table

  /** A booking can be reseated unless it has several assigned tables, or one that is not its primary. */
  ghost predicate Reseatable(b: Booking) {
    |b.assignments| <= 1 && forall t :: t in b.assignments ==> b.assignments[t]
  }

  /** Seated at the next table alone, otherwise as it was. */
  predicate SeatedAt(was: Booking, b: Booking, next: Id) {
    b == was.(table := Some(next), assignments := map[next := true], checkedIn := b.checkedIn)
  }

  /** The next table has room at once: another one, there to be booked, free, large enough, and not taken in the time
      the booking has stored, or two hours. */
  ghost predicate HasRoom(db: Db, b: Booking, next: Id) {
    && b.table != Some(next) && Ready(db, next) && db.tables[next].status == Free
    && b.guests <= db.tables[next].seats && b.time.Some?
    && var minutes := NormalizeDuration(if b.stored.Some? then Whole(b.stored.value) else Missing);
       !TimeTaken(db.bookings, next, b.date, None, BookingsReader, b.time.value, b.time.value + minutes + 15)
  }

  lemma SeatMeans(db: Db, b: Booking, next: Id)
    ensures CanSeat(db, b, next) <==> HasRoom(db, b, next)
  {
    ReadyMeans(db, next);
    if b.time.Some? {
      var minutes := NormalizeDuration(if b.stored.Some? then Whole(b.stored.value) else Missing);
      ClearMeans(db.bookings, next, b.date, None, BookingsReader, b.time.value, b.time.value + minutes + CLEANUP);
    }
  }

  /** Exactly when a waiter may move a booking: today's, approved, at a table that is there, to one with room. */
  lemma WaiterMovesExactly(db: Db, today: int, id: Id, next: Id)
    ensures WaiterTransfer(db, today, id, next).Done? <==>
            && id in db.bookings
            && var b := db.bookings[id];
               b.status == Approved && b.date == today && b.table.Some? && b.table.value in db.tables && Reseatable(b)
               && HasRoom(db, b, next)
  {
    if id in db.bookings { SeatMeans(db, db.bookings[id], next); }
  }

  /** What the move leaves: the booking at the next table, its arrival forgotten; the table left recounted, even if in
      use when these guests had arrived there, and then the next one. */
  lemma WaiterMoveLeaves(db: Db, today: int, id: Id, next: Id) returns (between: map<Id, Table>)
    requires WaiterTransfer(db, today, id, next).Done?
    ensures var b, after := db.bookings[id], WaiterTransfer(db, today, id, next).db;
            && after == db.(bookings := after.bookings, tables := after.tables)
            && id in after.bookings && after.bookings == db.bookings[id := after.bookings[id]]
            && SeatedAt(b, after.bookings[id], next) && !after.bookings[id].checkedIn
            && Recounted(db.tables, between, after.bookings, {b.table.value}, today,
                         b.checkedIn && db.tables[b.table.value].status in {Occupied, Cleaning})
            && Recounted(between, after.tables, after.bookings, {next}, today, false)
  {
    var b, after := db.bookings[id], WaiterTransfer(db, today, id, next).db;
    var release := b.checkedIn && db.tables[b.table.value].status in {Occupied, Cleaning};
    between := Synchronized(db.tables, after.bookings, {b.table.value}, today, release);
    SynchronizedRecounts(db.tables, after.bookings, {b.table.value}, today, release);
    SynchronizedRecounts(between, after.bookings, {next}, today, false);
  }

  /** The next table can take the booking as the reader sees it: another one, there to be booked, large enough, neither
      taken nor blocked. */
  ghost predicate CanTake(db: Db, b: Booking, id: Id, next: Id, reader: Reader) {
    && b.table != Some(next) && Ready(db, next) && b.guests <= db.tables[next].seats
    && b.time.Some? && Duration(reader, b.stored, b.remarks).Some?
    && var until := b.time.value + Duration(reader, b.stored, b.remarks).value + 15;
       && !TimeTaken(db.bookings, next, b.date, Some(id), reader, b.time.value, until)
       && !BlockedAt(db, next, b.date, b.time.value, until)
  }

  lemma ReceiveMeans(db: Db, b: Booking, id: Id, next: Id, reader: Reader)
    ensures CanReceive(db, b, id, next, reader) <==> CanTake(db, b, id, next, reader)
  {
    ReadyMeans(db, next);
    if b.time.Some? && b.Until(reader).Some? {
      ClearMeans(db.bookings, next, b.date, Some(id), reader, b.time.value, b.Until(reader).value);
      if next in db.tables { UnblockedMeans(db, next, b.date, b.time.value, b.Until(reader).value); }
    }
  }

  /** Exactly when staff may move a booking: in force, not of a past day, and the next table can take it. */
  lemma StaffMovesExactly(db: Db, today: int, id: Id, next: Id)
    ensures TransferBooking(db, today, id, next).Done? <==>
            && id in db.bookings && InForce(db.bookings[id]) && db.bookings[id].table.Some?
            && db.bookings[id].date >= today && Reseatable(db.bookings[id])
            && CanTake(db, db.bookings[id], id, next, BlocksReader)
  {
    if id in db.bookings { ReceiveMeans(db, db.bookings[id], id, next, BlocksReader); }
  }

  /** What the move leaves: the booking at the next table, its arrival kept, and both tables recounted if it is for
      today. */
  lemma StaffMoveLeaves(db: Db, today: int, id: Id, next: Id)
    requires TransferBooking(db, today, id, next).Done?
    ensures var b, after := db.bookings[id], TransferBooking(db, today, id, next).db;
            && after == db.(bookings := after.bookings, tables := after.tables)
            && id in after.bookings && after.bookings == db.bookings[id := after.bookings[id]]
            && SeatedAt(b, after.bookings[id], next) && after.bookings[id].checkedIn == b.checkedIn
            && (b.date != today ==> after.tables == db.tables)
            && (b.date == today ==>
                  Recounted(db.tables, after.tables, after.bookings, {b.table.value, next}, today, false))
  {
    var b, after := db.bookings[id], TransferBooking(db, today, id, next).db;
    assert {b.table.value} + {next} == {b.table.value, next};
    SynchronizedRecounts(db.tables, after.bookings, {b.table.value, next}, today, false);
  }

  /** A guest may ask for another table while the booking is in force and nobody has arrived; asking again while a
      request is pending adds none. */
  lemma ChangeAskedExactly(db: Db, request: Id, booking: Id)
    requires request !in db.changes
    ensures var o := RequestTableChange(db, request, booking);
            var pending := exists r :: r in db.changes && db.changes[r].booking == booking && db.changes[r].pending;
            && (o.Done? <==> booking in db.bookings && InForce(db.bookings[booking]) && !db.bookings[booking].checkedIn)
            && (o.Done? ==> o.db == if pending then db
                                    else db.(changes := db.changes[request := ChangeRequest(booking, true)]))
  {
  }

  /** Exactly when a request for another table is granted: pending, for a booking in force whose guests have not
      arrived; the next table can take it and is, today, not in use. */
  lemma ChangeGrantedExactly(db: Db, today: int, request: Id, next: Id)
    ensures ApproveTableChange(db, today, request, next).Done? <==>
            && request in db.changes && db.changes[request].pending && db.changes[request].booking in db.bookings
            && var id := db.changes[request].booking; var b := db.bookings[id];
               && InForce(b) && !b.checkedIn && b.table.Some? && b.table.value in db.tables && Reseatable(b)
               && CanTake(db, b, id, next, RequestsReader)
               && (b.date == today ==> db.tables[next].status != Occupied && db.tables[next].status != Cleaning)
  {
    if request in db.changes && db.changes[request].booking in db.bookings {
      var id := db.changes[request].booking;
      ReceiveMeans(db, db.bookings[id], id, next, RequestsReader);
    }
  }

  /** What the grant leaves: the request settled, the booking at the next table, and today the table left recounted and
      the next one claimed for it. */
  lemma ChangeLeaves(db: Db, today: int, request: Id, next: Id) returns (between: map<Id, Table>)
    requires ApproveTableChange(db, today, request, next).Done?
    ensures var id, after := db.changes[request].booking, ApproveTableChange(db, today, request, next).db;
            var b := db.bookings[id];
            && after == db.(bookings := after.bookings, tables := after.tables, changes := after.changes)
            && after.changes == db.changes[request := ChangeRequest(id, false)]
            && id in after.bookings && after.bookings == db.bookings[id := after.bookings[id]]
            && SeatedAt(b, after.bookings[id], next) && !after.bookings[id].checkedIn
            && (b.date != today ==> between == db.tables)
            && (b.date == today ==> Recounted(db.tables, between, after.bookings, {b.table.value}, today, false))
            && Claimed(between, after.tables, {next}, if b.status == Approved then Reserved
                       else Awaiting, b.date, today)
  {
    var id, after := db.changes[request].booking, ApproveTableChange(db, today, request, next).db;
    var b := db.bookings[id];
    between := if b.date == today then Synchronized(db.tables, after.bookings, {b.table.value}, today, false)
      else db.tables;
    SynchronizedRecounts(db.tables, after.bookings, {b.table.value}, today, false);
    MarkClaims(between, {next}, if b.status == Approved then Reserved else Awaiting, b.date, today);
  }

  // ----- Moves to another time

  /** Some other booking in force under the table itself is in the way; tables held by assignment are not looked at. */
  ghost predicate OwnTableTaken(bookings: map<Id, Booking>, t: Id, date: int, except: Id, start: int, until: int) {
    exists id :: id in bookings && id != except && InForce(bookings[id]) && bookings[id].date == date
      && bookings[id].table == Some(t) && TakenAt(bookings[id], RequestsReader, start, until)
  }

  lemma OwnTableMeans(bookings: map<Id, Booking>, t: Id, date: int, except: Id, start: int, until: int)
    requires start < until
    ensures OwnTableClear(bookings, t, date, except, start, until) <==>
            !OwnTableTaken(bookings, t, date, except, start, until)
  {
    forall id | id in bookings
      ensures bookings[id].Clashes(RequestsReader, start, until) <==>
                TakenAt(bookings[id], RequestsReader, start, until)
    {
      ClashMeans(bookings[id], RequestsReader, start, until);
    }
  }

  /** Any request for a new time of a booking that is there is noted as pending. */
  lemma NewTimeAskedExactly(db: Db, request: Id, booking: Id, date: int, time: string)
    requires request !in db.moves
    ensures RequestReschedule(db, request, booking, date, time)
            == if booking !in db.bookings then Refused
               else Done(db.(moves := db.moves[request := MoveRequest(booking, date, time, true)]))
  {
  }

  /** The new slot may be had: the table there to be booked, its own bookings and blocks out of the way, and no other
      booking of the guest on the date. */
  ghost predicate NewSlotFree(db: Db, id: Id, t: Id, date: int, start: int, until: int)
    requires id in db.bookings
  {
    && Ready(db, t) && !BlockedAt(db, t, date, start, until)
    && !OwnTableTaken(db.bookings, t, date, id, start, until)
    && !GuestTaken(db.bookings, date, db.bookings[id].phone, db.bookings[id].device, Some(id))
  }

  /** Exactly when a request for a new time of a booking that can be read is granted: pending, the booking in force,
      nobody arrived, the date not past, and the slot free for the stay and the cleaning. */
  lemma NewTimeGrantedExactly(db: Db, today: int, request: Id, start: nat, minutes: nat)
    requires request in db.moves && db.moves[request].booking in db.bookings
    requires db.bookings[db.moves[request].booking].table.Some? && Requested(db.moves[request]) == Some(start)
    requires var b := db.bookings[db.moves[request].booking];
             Duration(RequestsReader, b.stored, b.remarks) == Some(minutes)
    ensures ApproveReschedule(db, today, request).Done? <==>
            var move := db.moves[request]; var b := db.bookings[move.booking];
            && move.pending && InForce(b) && !b.checkedIn && move.date >= today
            && NewSlotFree(db, move.booking, b.table.value, move.date, start, start + minutes + 15)
  {
    var move := db.moves[request];
    var t := db.bookings[move.booking].table.value;
    NewSlotMeans(db, move.booking, t, move.date, start, start + minutes + 15);
    GrantedIfFree(db, today, request, start, minutes,
                  NewSlotFree(db, move.booking, t, move.date, start, start + minutes + 15));
  }

  lemma GrantedIfFree(db: Db, today: int, request: Id, start: nat, minutes: nat, free: bool)
    requires request in db.moves && db.moves[request].booking in db.bookings
    requires db.bookings[db.moves[request].booking].table.Some? && Requested(db.moves[request]) == Some(start)
    requires var b := db.bookings[db.moves[request].booking];
             Duration(RequestsReader, b.stored, b.remarks) == Some(minutes)
    requires var move := db.moves[request]; var b := db.bookings[move.booking]; var t := b.table.value;
             free <==>
             && CanBeBooked(db, t) && Unblocked(db.blocks, move.date, t, db.tables[t].zone, start, start + minutes + 15)
             && OwnTableClear(db.bookings, t, move.date, move.booking, start, start + minutes + 15)
             && GuestFree(db.bookings, move.date, b.phone, b.device, Some(move.booking))
    ensures ApproveReschedule(db, today, request).Done? <==>
            var move := db.moves[request]; var b := db.bookings[move.booking];
            move.pending && InForce(b) && !b.checkedIn && move.date >= today && free
  {
  }

  /** Any other is refused: no such request or booking, no table, a time that is none of the clock, or a length that
      cannot be read. */
  lemma NewTimeNeverGranted(db: Db, today: int, request: Id)
    requires || request !in db.moves || db.moves[request].booking !in db.bookings
             || db.bookings[db.moves[request].booking].table.None? || Requested(db.moves[request]).None?
             || var b := db.bookings[db.moves[request].booking];
                Duration(RequestsReader, b.stored, b.remarks).None?
    ensures ApproveReschedule(db, today, request) == Refused
  {
  }

  lemma NewSlotMeans(db: Db, id: Id, t: Id, date: int, start: int, until: int)
    requires id in db.bookings && start < until
    ensures NewSlotFree(db, id, t, date, start, until) <==>
            && CanBeBooked(db, t) && Unblocked(db.blocks, date, t, db.tables[t].zone, start, until)
            && OwnTableClear(db.bookings, t, date, id, start, until)
            && GuestFree(db.bookings, date, db.bookings[id].phone, db.bookings[id].device, Some(id))
  {
    ReadyMeans(db, t);
    if t in db.tables { UnblockedMeans(db, t, date, start, until); }
    OwnTableMeans(db.bookings, t, date, id, start, until);
    GuestFreeMeans(db.bookings, date, db.bookings[id].phone, db.bookings[id].device, Some(id));
  }

  /** What the grant leaves: the request settled and the booking at the requested date and minutes. */
  lemma NewTimeLeaves(db: Db, today: int, request: Id)
    requires ApproveReschedule(db, today, request).Done?
    ensures var move := db.moves[request];
            ApproveReschedule(db, today, request).db
            == db.(bookings := db.bookings[move.booking := db.bookings[move.booking].(date := move.date,
                                                                                      time := Requested(move))],
                   moves := db.moves[request := MoveRequest(move.booking, move.date, move.time, false)])
  {
  }

  // ----- Planned unavailability

  /** The booking is in force on the date at the target or in the target's zone. */
  ghost predicate SitsAt(tables: map<Id, Table>, b: Booking, target: Target, date: int) {
    && InForce(b) && b.date == date
    && exists t :: At(b, t) && (target == TableTarget(t)
                                || (t in tables && exists z :: tables[t].zone == Some(z) && target == ZoneTarget(z)))
  }

  lemma OccupiesMeans(tables: map<Id, Table>, b: Booking, target: Target, date: int, span: Option<(nat, nat)>)
    requires span.Some? ==> span.value.0 < span.value.1
    ensures Occupies(tables, b, target, date, span) <==>
            SitsAt(tables, b, target, date) && (span.Some? ==> TakenAt(b, BlocksReader, span.value.0, span.value.1))
  {
    if span.Some? { ClashMeans(b, BlocksReader, span.value.0, span.value.1); }
    assert forall t :: t in b.Tables() <==> At(b, t);
  }

  /** Exactly when a block is planned for a whole day. */
  lemma DayBlockedExactly(db: Db, today: int, target: Target, date: int, reasoned: bool, id: Id)
    requires id !in db.blocks
    ensures CreateBlock(db, today, Some(target), date, None, None, reasoned, id)
            == if reasoned && date >= today
                  && (match target case TableTarget(t) => t in db.tables case ZoneTarget(z) => z in db.zones)
                  && !(exists i :: i in db.bookings && SitsAt(db.tables, db.bookings[i], target, date))
               then Done(db.(blocks := db.blocks[id := Block(target, date, None)])) else Refused
  {
    forall i | i in db.bookings
      ensures Occupies(db.tables, db.bookings[i], target, date, None) <==>
                SitsAt(db.tables, db.bookings[i], target, date)
    {
      OccupiesMeans(db.tables, db.bookings[i], target, date, None);
    }
  }

  /** Exactly when a block is planned between two times, which must both be readable and in order. */
  lemma SpanBlockedExactly(db: Db, today: int, target: Target, date: int, start: string, end: string, reasoned: bool,
                           id: Id)
    requires id !in db.blocks && ParseTime(start).Some? && ParseTime(end).Some?
    ensures var (from, to) := (ParseTime(start).value, ParseTime(end).value);
            CreateBlock(db, today, Some(target), date, Some(start), Some(end), reasoned, id)
            == if reasoned && date >= today && from < to
                  && (match target case TableTarget(t) => t in db.tables case ZoneTarget(z) => z in db.zones)
                  && !(exists i :: i in db.bookings && SitsAt(db.tables, db.bookings[i], target, date)
                                   && TakenAt(db.bookings[i], BlocksReader, from, to))
               then Done(db.(blocks := db.blocks[id := Block(target, date, Some((Some(from), Some(to))))])) else Refused
  {
    var (from, to) := (ParseTime(start).value, ParseTime(end).value);
    SecondsDoNotMoveTime(start);
    SecondsDoNotMoveTime(end);
    if from < to {
      forall i | i in db.bookings
        ensures Occupies(db.tables, db.bookings[i], target, date, Some((from, to))) <==>
                SitsAt(db.tables, db.bookings[i], target, date) && TakenAt(db.bookings[i], BlocksReader, from, to)
      {
        OccupiesMeans(db.tables, db.bookings[i], target, date, Some((from, to)));
      }
    }
  }

  /** Without a target, with one bound only, or with an unreadable one, no block is planned. */
  lemma NoBlockWithout(db: Db, today: int, target: Option<Target>, date: int, start: Option<string>,
                       end: Option<string>, reasoned: bool, id: Id)
    requires || target.None? || (start.Some? != end.Some?)
             || (start.Some? && ParseTime(start.value).None?) || (end.Some? && ParseTime(end.value).None?)
    ensures CreateBlock(db, today, target, date, start, end, reasoned, id) == Refused
  {
  }

  /** Removing a block removes it and nothing else. */
  lemma RemovedExactlyOne(db: Db, id: Id)
    ensures RemoveBlock(db, id).Done? <==> id in db.blocks
    ensures RemoveBlock(db, id).Done? ==>
              var after := RemoveBlock(db, id).db;
              && after == db.(blocks := after.blocks) && id !in after.blocks
              && forall k :: k in db.blocks && k != id ==> k in after.blocks && after.blocks[k] == db.blocks[k]
    ensures RemoveBlock(db, id).Done? ==> RemoveBlock(db, id).db.blocks.Keys <= db.blocks.Keys
  {
  }

  // ----- The way into a creation

  /** The check before a creation: of a table found by id, or by the trimmed number. */
  lemma CheckedExactly(db: Db, today: int, table: Option<Id>, number: Option<string>, draft: Draft, t: Id)
    requires t in db.tables
    requires || table == Some(t)
             || ((table.None? || table.value !in db.tables) && number.Some? && Trim(number.value) != ""
                 && Trim(number.value) in db.numbers && db.numbers[Trim(number.value)] == t)
    ensures Bookable(db, today, table, number, draft) <==>
            && ParseTime(draft.time).Some? && draft.date >= today
            && var start := ParseTime(draft.time).value;
               !BlockedAt(db, t, draft.date, start, start + NormalizeDuration(draft.length) + 15)
  {
    if ParseTime(draft.time).Some? {
      UnblockedMeans(db, t, draft.date, ParseTime(draft.time).value, draft.Until());
    }
  }

  /** With no table found, by id or by a number that says something, there is nothing to check. */
  lemma NothingToCheck(db: Db, today: int, table: Option<Id>, number: Option<string>, draft: Draft)
    requires table.None? || table.value !in db.tables
    requires number.None? || Trim(number.value) == "" || Trim(number.value) !in db.numbers
    ensures Bookable(db, today, table, number, draft)
  {
  }

  lemma NumberGoesOn(db: Db, table: Option<Id>, number: Option<string>, t: Id)
    requires t in db.tables && (number.Some? && Trim(number.value) != "" ==> Trim(number.value) in db.numbers)
    requires number.Some? ==> |Trim(number.value)| <= 32
    requires || table == Some(t)
             || ((table.None? || table.value !in db.tables) && number.Some? && Trim(number.value) != ""
                 && db.numbers[Trim(number.value)] == t)
    ensures Submitted(db, number).Some?
    ensures var named := Submitted(db, number).value;
            Checked(db, table, named) == Some(t) == Resolve(db, table, named) && (table.None? ==> !Blank(named))
  {
    if number.Some? { TrimTwice(number.value); }
  }

  /** A guest's request by a table's id, or by its number within spaces, is placed exactly when guests are admitted and
      the checks and searches allow it. */
  lemma RequestPlacedExactly(db: Db, today: int, table: Option<Id>, number: Option<string>, draft: Draft, seats: int,
                             admitted: bool, newTable: Id, id: Id, t: Id)
    requires t in db.tables && (number.Some? && Trim(number.value) != "" ==> Trim(number.value) in db.numbers)
    requires number.Some? ==> |Trim(number.value)| <= 32
    requires || table == Some(t)
             || ((table.None? || table.value !in db.tables) && number.Some? && Trim(number.value) != ""
                 && db.numbers[Trim(number.value)] == t)
    ensures GuestRequest(db, today, table, number, draft, seats, admitted, newTable, id)
            == if admitted && Bookable(db, today, Some(t), None, draft)
               then Place(db, today, t, {t}, map[], draft, Pending, id) else Refused
  {
    NumberGoesOn(db, table, number, t);
  }

  /** A number that says something and is no table's, or is too long, is refused; so is a request that names no table
      at all. */
  lemma UnknownNumberIsRefused(db: Db, today: int, table: Option<Id>, number: Option<string>, draft: Draft, seats: int,
                               admitted: bool, newTable: Id, id: Id)
    requires || (number.Some? && Trim(number.value) != ""
                 && (Trim(number.value) !in db.numbers || |Trim(number.value)| > 32))
             || (table.None? && (number.None? || Trim(number.value) == ""))
    ensures GuestRequest(db, today, table, number, draft, seats, admitted, newTable, id) == Refused
  {
  }

  /** An empty number is none: with no table found by id the request is refused. */
  lemma EmptyNumberIsRefused(db: Db, today: int, table: Option<Id>, draft: Draft, seats: int, admitted: bool,
                             newTable: Id, id: Id)
    requires table.None? || table.value !in db.tables
    ensures GuestRequest(db, today, table, Some(""), draft, seats, admitted, newTable, id) == Refused
    ensures GuestRequest(db, today, table, None, draft, seats, admitted, newTable, id) == Refused
  {
  }

  /** A blank number that is not empty and no table's yet makes a table, visible and free, of that number. */
  lemma BlankNumberMakesTable(db: Db, today: int, table: Id, number: string, draft: Draft, seats: int, newTable: Id,
                              id: Id)
    requires table !in db.tables && number != "" && Trim(number) == "" && number !in db.numbers
    requires newTable !in db.tables
    ensures GuestRequest(db, today, Some(table), Some(number), draft, seats, true, newTable, id)
            == Place(db.(tables := db.tables[newTable := Table(None, true, Free, seats)],
                         numbers := db.numbers[number := newTable]),
                     today, newTable, {newTable}, map[], draft, Pending, id)
  {
  }

  /** Staff may book any table there is, for a guest who may be; the booking is approved and has no device. */
  lemma StaffBookingExactly(db: Db, today: int, table: Id, draft: Draft, admitted: bool, id: Id)
    ensures CreateManual(db, today, table, draft, admitted, id)
            == if admitted && table in db.tables
               then Place(db, today, table, {table}, map[], draft.(device := None), Approved, id) else Refused
  {
  }

  /** A banquet names two or more different tables, all there, with its primary among them. */
  lemma BanquetExactly(db: Db, today: int, tables: seq<Id>, primary: Id, draft: Draft, admitted: bool, id: Id)
    ensures var ids := set t | t in tables;
            CreateManualBanquet(db, today, tables, primary, draft, admitted, id)
            == if admitted && |tables| >= 2 && |ids| == |tables| && primary in tables
                  && (forall t :: t in tables ==> t in db.tables)
               then Place(db, today, primary, ids, map t | t in ids ::
                          t == primary, draft.(device := None), Approved, id)
               else Refused
  {
    var ids := set t | t in tables;
    assert ToSet(tables) == ids && Assigned(ids, primary) == map t | t in ids :: t == primary;
  }
}
