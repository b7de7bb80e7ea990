/** What single operations keep: no table is promised twice for one minute, and no booking sits in planned
    unavailability. */
module BookingSlots {
  import opened Basics
  import opened BookingTime
  import opened Bookings

  // ----- No double booking

  /** Rows as every creation writes them: a readable time and a stored length within bounds. */
  ghost predicate Written(b: Booking) {
    b.time.Some? && b.stored.Some? && 30 <= b.stored.value <= 720
  }

  ghost predicate AllWritten(bookings: map<Id, Booking>) {
    forall id :: id in bookings ==> Written(bookings[id])
  }

  /** First minute after the stay and the cleaning. */
  ghost function End(b: Booking): int
    requires Written(b)
  {
    b.time.value + b.stored.value + CLEANUP
  }

  ghost predicate Collide(a: Booking, b: Booking)
    requires Written(a) && Written(b)
  {
    && a.Active() && b.Active() && a.date == b.date
    && (exists t :: t in a.Tables() && t in b.Tables())
    && Overlap(a.time.value, End(a), b.time.value, End(b))
  }

  /** No two active bookings share a table, own or assigned, at overlapping times of one date. */
  ghost predicate NoDoubleBooking(bookings: map<Id, Booking>)
    requires AllWritten(bookings)
  {
    forall i, j :: i in bookings && j in bookings && i != j ==> !Collide(bookings[i], bookings[j])
  }

  ghost predicate Sound(bookings: map<Id, Booking>) {
    AllWritten(bookings) && NoDoubleBooking(bookings)
  }

  /** Every service sees the same slot in a written row. */
  lemma WrittenSlot(b: Booking, reader: Reader)
    requires Written(b)
    ensures b.Until(reader) == Some(End(b))
  {
  }

  /** A row may take a slot that is clear at each of its tables. */
  lemma ClearSlotKeepsSound(bookings: map<Id, Booking>, id: Id, b: Booking, except: Option<Id>, reader: Reader)
    requires Sound(bookings) && Written(b)
    requires except == None || except == Some(id)
    requires forall t :: t in b.Tables() ==> Clear(bookings, t, b.date, except, reader, b.time.value, End(b))
    ensures Sound(bookings[id := b])
  {
    forall j | j in bookings && j != id ensures !Collide(b, bookings[j]) && !Collide(bookings[j], b) {
      var other := bookings[j];
      WrittenSlot(other, reader);
      if other.Active() && other.date == b.date {
        forall t | t in b.Tables() && t in other.Tables()
          ensures !Overlap(b.time.value, End(b), other.time.value, End(other))
        {
          assert Clear(bookings, t, b.date, except, reader, b.time.value, End(b));
          assert other.Holds(t, b.date);
        }
      }
    }
  }

  /** Conversely, an active row sits soundly among the others only at a clear slot. */
  lemma SoundSlotIsClear(bookings: map<Id, Booking>, id: Id, b: Booking, reader: Reader)
    requires AllWritten(bookings) && Written(b) && b.Active() && Sound(bookings[id := b])
    ensures forall t :: t in b.Tables() ==> Clear(bookings, t, b.date, Some(id), reader, b.time.value, End(b))
  {
    var after := bookings[id := b];
    forall t, j | t in b.Tables() && j in bookings && j != id && bookings[j].Holds(t, b.date)
      ensures !bookings[j].Clashes(reader, b.time.value, End(b))
    {
      WrittenSlot(bookings[j], reader);
      assert !Collide(after[id], after[j]);
    }
  }

  /** The same guest, tables, date and slot, and active only if it was. */
  ghost predicate KeepsSlot(was: Booking, b: Booking) {
    && b.guests == was.guests && b.phone == was.phone && b.device == was.device
    && b.table == was.table && b.assignments == was.assignments && b.date == was.date
    && b.time == was.time && b.stored == was.stored && (b.Active() ==> was.Active())
  }

  /** A row that keeps its slot, and does not become active, disturbs nobody. */
  lemma KeptSlotKeepsSound(bookings: map<Id, Booking>, id: Id, b: Booking)
    requires Sound(bookings) && id in bookings && KeepsSlot(bookings[id], b)
    ensures Sound(bookings[id := b])
  {
  }

  /** What a new booking's row says, whoever reads it. */
  lemma NewBookingIsWritten(draft: Draft, table: Id, assignments: map<Id, bool>, status: BookingStatus)
    requires ParseTime(draft.time).Some?
    ensures var b := NewBooking(draft, table, assignments, status);
            Written(b) && b.time == ParseTime(draft.time) && End(b) == draft.Until()
  {
    AcceptedTimeIsStored(draft.time, ParseTime(draft.time).value);
  }

  /** Creation at tables that all hold the booking. */
  lemma PlaceKeepsSound(db: Db, today: int, table: Id, ids: set<Id>, assignments: map<Id, bool>, draft: Draft,
                        status: BookingStatus, id: Id)
    requires Sound(db.bookings) && ids == {table} + assignments.Keys
    requires Place(db, today, table, ids, assignments, draft, status, id).Done?
    ensures Sound(Place(db, today, table, ids, assignments, draft, status, id).db.bookings)
  {
    var b := NewBooking(draft, table, assignments, status);
    NewBookingIsWritten(draft, table, assignments, status);
    ClearSlotKeepsSound(db.bookings, id, b, None, BookingsReader);
  }

  lemma CreateKeepsSound(db: Db, today: int, table: Option<Id>, number: Option<string>, draft: Draft, seats: int,
                         admitted: bool, newTable: Id, id: Id)
    requires Sound(db.bookings)
    ensures var o := Create(db, today, table, number, draft, seats, admitted, newTable, id);
            o.Done? ==> Sound(o.db.bookings)
  {
    var found := Resolve(db, table, number);
    if found.Some? {
      PlaceOneKeepsSound(db, today, found.value, draft, Pending, id);
    } else if number.Some? {
      PlaceOneKeepsSound(WithTable(db, newTable, number.value, seats), today, newTable, draft, Pending, id);
    }
  }

  lemma PlaceOneKeepsSound(db: Db, today: int, table: Id, draft: Draft, status: BookingStatus, id: Id)
    requires Sound(db.bookings)
    ensures var o := Place(db, today, table, {table}, map[], draft, status, id); o.Done? ==> Sound(o.db.bookings)
  {
    if Place(db, today, table, {table}, map[], draft, status, id).Done? {
      PlaceKeepsSound(db, today, table, {table}, map[], draft, status, id);
    }
  }

  lemma ManualKeepsSound(db: Db, today: int, table: Id, draft: Draft, admitted: bool, id: Id)
    requires Sound(db.bookings)
    ensures var o := CreateManual(db, today, table, draft, admitted, id); o.Done? ==> Sound(o.db.bookings)
  {
    PlaceOneKeepsSound(db, today, table, draft.(device := None), Approved, id);
  }

  lemma BanquetKeepsSound(db: Db, today: int, tables: seq<Id>, primary: Id, draft: Draft, admitted: bool, id: Id)
    requires Sound(db.bookings)
    ensures var o := CreateManualBanquet(db, today, tables, primary, draft, admitted, id);
            o.Done? ==> Sound(o.db.bookings)
  {
    var ids := ToSet(tables);
    var assignments := Assigned(ids, primary);
    if CreateManualBanquet(db, today, tables, primary, draft, admitted, id).Done? {
      assert {primary} + assignments.Keys == ids;
      PlaceKeepsSound(db, today, primary, ids, assignments, draft.(device := None), Approved, id);
    }
  }

  /** A guest's only draft of the day, at bookable tables, is refused exactly when placing it would promise a table
      twice. */
  lemma PlacedExactlyWhenSound(db: Db, today: int, table: Id, ids: set<Id>, assignments: map<Id, bool>, draft: Draft,
                               status: BookingStatus, id: Id)
    requires Sound(db.bookings) && ids == {table} + assignments.Keys && (status == Pending || status == Approved)
    requires id !in db.bookings && ParseTime(draft.time).Some? && forall t :: t in ids ==> CanBeBooked(db, t)
    requires GuestFree(db.bookings, draft.date, draft.phone, draft.device, None)
    ensures Place(db, today, table, ids, assignments, draft, status, id).Done?
            <==> Sound(db.bookings[id := NewBooking(draft, table, assignments, status)])
  {
    var b := NewBooking(draft, table, assignments, status);
    NewBookingIsWritten(draft, table, assignments, status);
    if Place(db, today, table, ids, assignments, draft, status, id).Done? {
      PlaceKeepsSound(db, today, table, ids, assignments, draft, status, id);
    }
    if Sound(db.bookings[id := b]) {
      SoundSlotIsClear(db.bookings, id, b, BookingsReader);
      forall t | t in ids
        ensures Clear(db.bookings, t, draft.date, None, BookingsReader, ParseTime(draft.time).value, draft.Until())
      {
        assert t in b.Tables();
        assert Clear(db.bookings, t, b.date, Some(id), BookingsReader, b.time.value, End(b));
      }
    }
  }

  /** Approval, arrival and closings touch one row, and not its slot. */
  lemma TransitChangesOneRow(db: Db, today: int, id: Id, transition: Transition)
    requires Transit(db, today, id, transition).Done?
    ensures var after := Transit(db, today, id, transition).db;
            && id in db.bookings && id in after.bookings && after.bookings == db.bookings[id := after.bookings[id]]
            && KeepsSlot(db.bookings[id], after.bookings[id]) && after.blocks == db.blocks
  {
  }

  lemma CloseChangesOneRow(db: Db, today: int, id: Id, closing: Closing)
    requires Close(db, today, id, closing).Done?
    ensures var after := Close(db, today, id, closing).db;
            && id in db.bookings && id in after.bookings && after.bookings == db.bookings[id := after.bookings[id]]
            && KeepsSlot(db.bookings[id], after.bookings[id]) && !after.bookings[id].Active()
            && after.blocks == db.blocks
  {
    assert ClosedRow(db.bookings[id], closing).Some?;
    ClosedRowKeepsSlot(db.bookings[id], closing);
  }

  lemma ClosedRowKeepsSlot(b: Booking, closing: Closing)
    requires ClosedRow(b, closing).Some?
    ensures KeepsSlot(b, ClosedRow(b, closing).value) && !ClosedRow(b, closing).value.Active()
  {
  }

  lemma TransitKeepsSound(db: Db, today: int, id: Id, transition: Transition)
    requires Sound(db.bookings) && Transit(db, today, id, transition).Done?
    ensures Sound(Transit(db, today, id, transition).db.bookings)
  {
    TransitChangesOneRow(db, today, id, transition);
    KeptSlotKeepsSound(db.bookings, id, Transit(db, today, id, transition).db.bookings[id]);
  }

  lemma CloseKeepsSound(db: Db, today: int, id: Id, closing: Closing)
    requires Sound(db.bookings) && Close(db, today, id, closing).Done?
    ensures Sound(Close(db, today, id, closing).db.bookings)
  {
    CloseChangesOneRow(db, today, id, closing);
    KeptSlotKeepsSound(db.bookings, id, Close(db, today, id, closing).db.bookings[id]);
  }

  /** A move to one clear table keeps the slot's time. */
  lemma ReassignedKeepsSound(bookings: map<Id, Booking>, id: Id, next: Id, except: Option<Id>, reader: Reader,
                             arrived: bool)
    requires Sound(bookings) && id in bookings && Reassigned(bookings[id], next).Some?
    requires except == None || except == Some(id)
    requires Clear(bookings, next, bookings[id].date, except, reader, bookings[id].time.value, End(bookings[id]))
    ensures Sound(bookings[id := Reassigned(bookings[id], next).value.(checkedIn := arrived)])
  {
    var b := Reassigned(bookings[id], next).value.(checkedIn := arrived);
    assert b.Tables() == {next};
    ClearSlotKeepsSound(bookings, id, b, except, reader);
  }

  lemma WaiterTransferKeepsSound(db: Db, today: int, id: Id, next: Id)
    requires Sound(db.bookings)
    ensures var o := WaiterTransfer(db, today, id, next); o.Done? ==> Sound(o.db.bookings)
  {
    if WaiterTransfer(db, today, id, next).Done? {
      StoredLength(db.bookings[id].stored.value);
      ReassignedKeepsSound(db.bookings, id, next, None, BookingsReader, false);
    }
  }

  lemma TransferKeepsSound(db: Db, today: int, id: Id, next: Id)
    requires Sound(db.bookings)
    ensures var o := TransferBooking(db, today, id, next); o.Done? ==> Sound(o.db.bookings)
  {
    if TransferBooking(db, today, id, next).Done? {
      var b := db.bookings[id];
      WrittenSlot(b, BlocksReader);
      ReassignedKeepsSound(db.bookings, id, next, Some(id), BlocksReader, b.checkedIn);
    }
  }

  lemma ApproveChangeKeepsSound(db: Db, today: int, request: Id, next: Id)
    requires Sound(db.bookings)
    ensures var o := ApproveTableChange(db, today, request, next); o.Done? ==> Sound(o.db.bookings)
  {
    if ApproveTableChange(db, today, request, next).Done? {
      var id := db.changes[request].booking;
      var b := db.bookings[id];
      WrittenSlot(b, RequestsReader);
      ReassignedKeepsSound(db.bookings, id, next, Some(id), RequestsReader, b.checkedIn);
    }
  }

  // ----- Rescheduling, which looks at the booking's own table only

  /** The search the other operations make, at every table of the booking, for the requested slot. */
  ghost predicate FullyClear(bookings: map<Id, Booking>, id: Id, date: int, start: nat)
    requires id in bookings && Written(bookings[id])
  {
    forall t :: t in bookings[id].Tables() ==>
      Clear(bookings, t, date, Some(id), RequestsReader, start, start + bookings[id].stored.value + CLEANUP)
  }

  /** Approving a new time keeps tables from being promised twice exactly when that fuller search is clear. */
  lemma RescheduleExactly(db: Db, today: int, request: Id)
    requires Sound(db.bookings) && ApproveReschedule(db, today, request).Done?
    ensures var move := db.moves[request]; var after := ApproveReschedule(db, today, request).db.bookings;
            && AllWritten(after) && Requested(move).Some?
            && (NoDoubleBooking(after) <==>
                FullyClear(db.bookings, move.booking, move.date, Requested(move).value))
  {
    var id, date := db.moves[request].booking, db.moves[request].date;
    var after := ApproveReschedule(db, today, request).db.bookings;
    var b := after[id];
    assert after == db.bookings[id := b];
    if FullyClear(db.bookings, id, date, b.time.value) {
      forall t | t in b.Tables() ensures Clear(db.bookings, t, b.date, Some(id), RequestsReader, b.time.value, End(b)) {
        assert t in db.bookings[id].Tables();
      }
      ClearSlotKeepsSound(db.bookings, id, b, Some(id), RequestsReader);
    }
    if NoDoubleBooking(after) {
      SoundSlotIsClear(db.bookings, id, b, RequestsReader);
      forall t | t in db.bookings[id].Tables()
        ensures Clear(db.bookings, t, date, Some(id), RequestsReader,
                      b.time.value, b.time.value + db.bookings[id].stored.value + CLEANUP)
      {
        assert t in b.Tables();
      }
    }
  }

  /** A booking at its own table only. */
  ghost predicate Plain(b: Booking) { b.table.Some? && b.assignments.Keys <= {b.table.value} }

  ghost predicate AllPlain(bookings: map<Id, Booking>) {
    forall id :: id in bookings ==> Plain(bookings[id])
  }

  /** Without banquets the narrow search is the full one. */
  lemma PlainRescheduleKeepsSound(db: Db, today: int, request: Id)
    requires Sound(db.bookings) && AllPlain(db.bookings)
    ensures var o := ApproveReschedule(db, today, request); o.Done? ==> Sound(o.db.bookings)
  {
    var o := ApproveReschedule(db, today, request);
    if o.Done? {
      var id, date := db.moves[request].booking, db.moves[request].date;
      var b := o.db.bookings[id];
      forall t, j | t in b.Tables() && j in db.bookings && j != id && db.bookings[j].Holds(t, date)
        ensures !db.bookings[j].Clashes(RequestsReader, b.time.value, End(b))
      {
        assert db.bookings[j].HoldsOwn(b.table.value, date);
      }
      RescheduleExactly(db, today, request);
    }
  }
}
