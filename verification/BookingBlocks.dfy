/** Bookings and planned unavailability: what each operation does to keep them apart. */
module BookingBlocks {
  import opened Basics
  import opened Text
  import opened BookingTime
  import opened Bookings
  import opened BookingSlots

  ghost function ZoneOf(tables: map<Id, Table>, t: Id): Option<Id> {
    if t in tables then tables[t].zone else None
  }

  /** The booking sits, at one of its tables, in a block on the table or on its zone. */
  ghost predicate SitsIn(tables: map<Id, Table>, b: Booking, block: Block)
    requires Written(b)
  {
    && b.Active() && b.date == block.date && block.Covers(b.time.value, End(b))
    && exists t :: t in b.Tables() && block.AppliesTo(t, ZoneOf(tables, t))
  }

  ghost predicate KeptApart(tables: map<Id, Table>, bookings: map<Id, Booking>, blocks: map<Id, Block>)
    requires AllWritten(bookings)
  {
    forall i, k :: i in bookings && k in blocks ==> !SitsIn(tables, bookings[i], blocks[k])
  }

  /** Every table a booking or a block names is there. */
  ghost predicate Linked(db: Db) {
    && (forall i, t :: i in db.bookings && t in db.bookings[i].Tables() ==> t in db.tables)
    && (forall k :: k in db.blocks && db.blocks[k].target.TableTarget? ==> db.blocks[k].target.id in db.tables)
  }

  ghost predicate Apart(db: Db) {
    AllWritten(db.bookings) && Linked(db) && KeptApart(db.tables, db.bookings, db.blocks)
  }

  /** The same tables in the same zones; statuses may differ. */
  ghost predicate SameZones(before: map<Id, Table>, after: map<Id, Table>) {
    before.Keys == after.Keys && forall t :: t in before ==> before[t].zone == after[t].zone
  }

  lemma StatusesKeepZones(tables: map<Id, Table>, bookings: map<Id, Booking>, ids: set<Id>, status: TableStatus,
                          date: int, today: int, release: bool)
    ensures SameZones(tables, MarkToday(tables, ids, status, date, today))
    ensures SameZones(tables, Synchronized(tables, bookings, ids, date, release))
  {
  }

  /** A row may take a slot no block covers at any of its tables. */
  lemma UnblockedSlotKeepsApart(db: Db, id: Id, b: Booking, after: Db)
    requires Apart(db) && Written(b) && b.Tables() <= db.tables.Keys
    requires after.bookings == db.bookings[id := b] && after.blocks == db.blocks && SameZones(db.tables, after.tables)
    requires forall t :: t in b.Tables() ==> Unblocked(db.blocks, b.date, t, ZoneOf(db.tables, t), b.time.value, End(b))
    ensures Apart(after)
  {
  }

  /** A row that keeps its slot, and does not become active, stays clear of blocks. */
  lemma KeptSlotKeepsApart(db: Db, id: Id, after: Db)
    requires Apart(db) && id in db.bookings && id in after.bookings && KeepsSlot(db.bookings[id], after.bookings[id])
    requires after.bookings == db.bookings[id := after.bookings[id]] && after.blocks == db.blocks
    requires SameZones(db.tables, after.tables)
    ensures Apart(after)
  {
    assert after.bookings[id].Tables() == db.bookings[id].Tables();
    forall i, k | i in after.bookings && k in after.blocks
      ensures !SitsIn(after.tables, after.bookings[i], after.blocks[k])
    {
      assert !SitsIn(db.tables, db.bookings[i], db.blocks[k]);
    }
  }

  /** Placing a draft whose slot was checked at each table. */
  lemma PlaceKeepsApart(db: Db, today: int, table: Id, ids: set<Id>, assignments: map<Id, bool>, draft: Draft,
                        status: BookingStatus, id: Id)
    requires Apart(db) && ids == {table} + assignments.Keys
    requires Place(db, today, table, ids, assignments, draft, status, id).Done?
    requires forall t :: t in ids ==>
               Unblocked(db.blocks, draft.date, t, ZoneOf(db.tables, t), ParseTime(draft.time).value, draft.Until())
    ensures Apart(Place(db, today, table, ids, assignments, draft, status, id).db)
  {
    var b := NewBooking(draft, table, assignments, status);
    NewBookingIsWritten(draft, table, assignments, status);
    var after := Place(db, today, table, ids, assignments, draft, status, id).db;
    StatusesKeepZones(db.tables, db.bookings, ids, if status == Approved then Reserved else Awaiting,
                      draft.date, today, false);
    assert b.Tables() == ids;
    UnblockedSlotKeepsApart(db, id, b, after);
  }

  /** A table made for a new number has nothing planned for it. */
  lemma NewTableKeepsApart(db: Db, newTable: Id, number: string, seats: int)
    requires Apart(db) && newTable !in db.tables
    ensures var grown := WithTable(db, newTable, number, seats);
            Apart(grown) && forall date, start, until :: Unblocked(grown.blocks, date, newTable, None, start, until)
  {
  }

  /** A creation at one table keeps bookings out of blocks exactly when none covers its slot there. */
  lemma PlaceApartExactly(db: Db, today: int, table: Id, draft: Draft, status: BookingStatus, id: Id)
    requires Apart(db) && (status == Pending || status == Approved)
    requires Place(db, today, table, {table}, map[], draft, status, id).Done?
    ensures ParseTime(draft.time).Some?
    ensures Apart(Place(db, today, table, {table}, map[], draft, status, id).db) <==>
            Unblocked(db.blocks, draft.date, table, ZoneOf(db.tables, table), ParseTime(draft.time).value,
                      draft.Until())
  {
    var after := Place(db, today, table, {table}, map[], draft, status, id).db;
    if Unblocked(db.blocks, draft.date, table, ZoneOf(db.tables, table), ParseTime(draft.time).value, draft.Until()) {
      PlaceKeepsApart(db, today, table, {table}, map[], draft, status, id);
    }
    if Apart(after) {
      NewBookingIsWritten(draft, table, map[], status);
      StatusesKeepZones(db.tables, db.bookings, {table}, if status == Approved then Reserved else Awaiting,
                        draft.date, today, false);
      assert after.bookings[id] == NewBooking(draft, table, map[], status);
      ApartSlotIsUnblocked(after, id, table);
    }
  }

  /** The check passes a guest's request without a look while the creation finds a table for it: a table whose
      number is nothing but space. */
  predicate SlipsPast(db: Db, table: Option<Id>, number: Option<string>) {
    !(table.Some? && table.value in db.tables) && Named(number) && Blank(number) && number.value in db.numbers
  }

  /** No block covers the slot at a table reached past the check. */
  ghost predicate LandsClear(db: Db, table: Option<Id>, number: Option<string>, draft: Draft) {
    SlipsPast(db, table, number) && ParseTime(draft.time).Some? ==>
      var found := db.numbers[number.value];
      Unblocked(db.blocks, draft.date, found, ZoneOf(db.tables, found), ParseTime(draft.time).value, draft.Until())
  }

  /** What becomes of the number: a blank one stays, any other is checked as it will be looked up. */
  lemma SubmittedNumber(db: Db, table: Option<Id>, number: Option<string>)
    requires Submitted(db, number).Some?
    ensures var named := Submitted(db, number).value;
            && (Blank(named) <==> Blank(number)) && (Blank(number) ==> named == number)
            && (!Blank(number) ==> Checked(db, table, named) == Resolve(db, table, named) != None)
  {
    if !Blank(number) { TrimTwice(number.value); }
  }

  /** The table the creation finds was checked, unless the request slipped past. */
  lemma FoundIsChecked(db: Db, table: Option<Id>, number: Option<string>)
    requires Submitted(db, number).Some? && Resolve(db, table, Submitted(db, number).value).Some?
    ensures var named := Submitted(db, number).value;
            if SlipsPast(db, table, number) then Resolve(db, table, named) == Some(db.numbers[number.value])
            else Checked(db, table, named) == Resolve(db, table, named)
  {
    SubmittedNumber(db, table, number);
  }

  /** A guest's request keeps bookings out of blocks exactly when it lands clear. */
  lemma GuestRequestExactly(db: Db, today: int, table: Option<Id>, number: Option<string>, draft: Draft, seats: int,
                            admitted: bool, newTable: Id, id: Id)
    requires Apart(db) && GuestRequest(db, today, table, number, draft, seats, admitted, newTable, id).Done?
    ensures Apart(GuestRequest(db, today, table, number, draft, seats, admitted, newTable, id).db) <==>
            LandsClear(db, table, number, draft)
  {
    var named := Submitted(db, number).value;
    var found := Resolve(db, table, named);
    if found.Some? {
      FoundIsChecked(db, table, number);
      assert CanBeBooked(db, found.value);
      PlaceApartExactly(db, today, found.value, draft, Pending, id);
    } else {
      SubmittedNumber(db, table, number);
      PlaceAtNewTableKeepsApart(db, today, draft, named.value, seats, newTable, id);
    }
  }

  /** In particular when the table is found by its id, or by a number that is not blank. */
  lemma GuardedCreateKeepsApart(db: Db, today: int, table: Option<Id>, number: Option<string>, draft: Draft,
                                seats: int, admitted: bool, newTable: Id, id: Id)
    requires Apart(db) && !SlipsPast(db, table, number)
    ensures var o := GuestRequest(db, today, table, number, draft, seats, admitted, newTable, id);
            o.Done? ==> Apart(o.db)
  {
    if GuestRequest(db, today, table, number, draft, seats, admitted, newTable, id).Done? {
      GuestRequestExactly(db, today, table, number, draft, seats, admitted, newTable, id);
    }
  }

  lemma PlaceAtNewTableKeepsApart(db: Db, today: int, draft: Draft, number: string, seats: int, newTable: Id, id: Id)
    requires Apart(db) && newTable !in db.tables
    requires Place(WithTable(db, newTable, number, seats), today, newTable, {newTable}, map[], draft, Pending, id).Done?
    ensures var grown := WithTable(db, newTable, number, seats);
            Apart(Place(grown, today, newTable, {newTable}, map[], draft, Pending, id).db)
  {
    var grown := WithTable(db, newTable, number, seats);
    NewTableKeepsApart(db, newTable, number, seats);
    assert Unblocked(grown.blocks, draft.date, newTable, ZoneOf(grown.tables, newTable), ParseTime(draft.time).value,
                     draft.Until());
    PlaceKeepsApart(grown, today, newTable, {newTable}, map[], draft, Pending, id);
  }

  lemma GuardedManualKeepsApart(db: Db, today: int, table: Id, draft: Draft, admitted: bool, id: Id)
    requires Apart(db) && Bookable(db, today, Some(table), None, draft)
    ensures var o := CreateManual(db, today, table, draft, admitted, id); o.Done? ==> Apart(o.db)
  {
    if CreateManual(db, today, table, draft, admitted, id).Done? {
      assert CanBeBooked(db, table);
      PlaceKeepsApart(db, today, table, {table}, map[], draft.(device := None), Approved, id);
    }
  }

  lemma BookableIsUnblocked(db: Db, today: int, t: Id, draft: Draft)
    requires t in db.tables && Bookable(db, today, Some(t), None, draft)
    ensures ParseTime(draft.time).Some?
    ensures Unblocked(db.blocks, draft.date, t, ZoneOf(db.tables, t), ParseTime(draft.time).value, draft.Until())
  {
  }

  lemma GuardedBanquetKeepsApart(db: Db, today: int, tables: seq<Id>, primary: Id, draft: Draft, admitted: bool, id: Id)
    requires Apart(db) && forall t :: t in tables ==> Bookable(db, today, Some(t), None, draft)
    requires CreateManualBanquet(db, today, tables, primary, draft, admitted, id).Done?
    ensures Apart(CreateManualBanquet(db, today, tables, primary, draft, admitted, id).db)
  {
    var ids := ToSet(tables);
    var assignments := Assigned(ids, primary);
    assert {primary} + assignments.Keys == ids;
    forall t | t in ids
      ensures ParseTime(draft.time).Some?
      ensures Unblocked(db.blocks, draft.date, t, ZoneOf(db.tables, t), ParseTime(draft.time).value, draft.Until())
    {
      BookableIsUnblocked(db, today, t, draft);
    }
    PlaceKeepsApart(db, today, primary, ids, assignments, draft.(device := None), Approved, id);
  }

  lemma TransitKeepsApart(db: Db, today: int, id: Id, transition: Transition)
    requires Apart(db) && Transit(db, today, id, transition).Done?
    ensures Apart(Transit(db, today, id, transition).db)
  {
    TransitChangesOneRow(db, today, id, transition);
    TransitKeepsZones(db, today, id, transition);
    KeptSlotKeepsApart(db, id, Transit(db, today, id, transition).db);
  }

  lemma TransitKeepsZones(db: Db, today: int, id: Id, transition: Transition)
    requires Transit(db, today, id, transition).Done?
    ensures SameZones(db.tables, Transit(db, today, id, transition).db.tables)
  {
  }

  lemma CloseKeepsApart(db: Db, today: int, id: Id, closing: Closing)
    requires Apart(db) && Close(db, today, id, closing).Done?
    ensures Apart(Close(db, today, id, closing).db)
  {
    CloseChangesOneRow(db, today, id, closing);
    CloseKeepsZones(db, today, id, closing);
    KeptSlotKeepsApart(db, id, Close(db, today, id, closing).db);
  }

  lemma CloseKeepsZones(db: Db, today: int, id: Id, closing: Closing)
    requires Close(db, today, id, closing).Done?
    ensures SameZones(db.tables, Close(db, today, id, closing).db.tables)
  {
  }

  /** A move to one table whose blocks leave the slot free. */
  lemma ReassignedKeepsApart(db: Db, id: Id, next: Id, arrived: bool, after: Db)
    requires Apart(db) && id in db.bookings && next in db.tables && Reassigned(db.bookings[id], next).Some?
    requires after.bookings == db.bookings[id := Reassigned(db.bookings[id], next).value.(checkedIn := arrived)]
    requires after.blocks == db.blocks && SameZones(db.tables, after.tables)
    requires var b := db.bookings[id]; Unblocked(db.blocks, b.date, next, db.tables[next].zone, b.time.value, End(b))
    ensures Apart(after)
  {
    var b := Reassigned(db.bookings[id], next).value.(checkedIn := arrived);
    assert b.Tables() == {next};
    UnblockedSlotKeepsApart(db, id, b, after);
  }

  lemma TransferKeepsApart(db: Db, today: int, id: Id, next: Id)
    requires Apart(db)
    ensures var o := TransferBooking(db, today, id, next); o.Done? ==> Apart(o.db)
  {
    var o := TransferBooking(db, today, id, next);
    if o.Done? {
      var b := db.bookings[id];
      WrittenSlot(b, BlocksReader);
      StatusesKeepZones(db.tables, o.db.bookings, {b.table.value} + {next}, Free, today, today, false);
      ReassignedKeepsApart(db, id, next, b.checkedIn, o.db);
    }
  }

  lemma ApproveChangeKeepsApart(db: Db, today: int, request: Id, next: Id)
    requires Apart(db)
    ensures var o := ApproveTableChange(db, today, request, next); o.Done? ==> Apart(o.db)
  {
    var o := ApproveTableChange(db, today, request, next);
    if o.Done? {
      var id := db.changes[request].booking;
      var b := db.bookings[id];
      WrittenSlot(b, RequestsReader);
      StatusesKeepZones(db.tables, o.db.bookings, {b.table.value}, Free, today, today, false);
      var left :=
        if b.date == today then Synchronized(db.tables, o.db.bookings, {b.table.value}, today, false) else db.tables;
      StatusesKeepZones(left, o.db.bookings, {next}, if b.status == Approved then Reserved else Awaiting,
                        b.date, today, false);
      ReassignedKeepsApart(db, id, next, b.checkedIn, o.db);
    }
  }

  lemma CreateBlockKeepsApart(db: Db, today: int, target: Option<Target>, date: int, start: Option<string>,
                              end: Option<string>, reasoned: bool, id: Id)
    requires Apart(db)
    ensures var o := CreateBlock(db, today, target, date, start, end, reasoned, id); o.Done? ==> Apart(o.db)
  {
    var o := CreateBlock(db, today, target, date, start, end, reasoned, id);
    if o.Done? {
      if start.Some? && end.Some? {
        SecondsDoNotMoveTime(start.value);
        SecondsDoNotMoveTime(end.value);
      }
      forall i, k | i in db.bookings && k in o.db.blocks ensures !SitsIn(db.tables, db.bookings[i], o.db.blocks[k]) {
        if k == id {
          WrittenSlot(db.bookings[i], BlocksReader);
          assert !Occupies(db.tables, db.bookings[i], target.value, date, Range(start, end).value);
        } else {
          assert !SitsIn(db.tables, db.bookings[i], db.blocks[k]);
        }
      }
    }
  }

  lemma RemoveBlockKeepsApart(db: Db, id: Id)
    requires Apart(db)
    ensures var o := RemoveBlock(db, id); o.Done? ==> Apart(o.db)
  {
  }

  /** The block stands in the way of a slot at a table in a zone. */
  predicate Bars(block: Block, date: int, table: Id, zone: Option<Id>, start: int, until: int) {
    block.date == date && block.AppliesTo(table, zone) && block.Covers(start, until)
  }

  /** Removing a block frees exactly the slots that no other block bars; every slot free before stays free. */
  lemma RemovedBlockFreesSlots(db: Db, id: Id, date: int, table: Id, zone: Option<Id>, start: int, until: int)
    requires RemoveBlock(db, id).Done?
    ensures var after := RemoveBlock(db, id).db;
            && after.bookings == db.bookings && after.tables == db.tables
            && (Unblocked(db.blocks, date, table, zone, start, until) ==>
                Unblocked(after.blocks, date, table, zone, start, until))
            && (Unblocked(after.blocks, date, table, zone, start, until) <==>
                forall k :: k in db.blocks && k != id ==> !Bars(db.blocks[k], date, table, zone, start, until))
  {
    var after := RemoveBlock(db, id).db.blocks;
    if Unblocked(after, date, table, zone, start, until) {
      forall k | k in db.blocks && k != id ensures !Bars(db.blocks[k], date, table, zone, start, until) {
        assert k in after;
      }
    }
    if forall k :: k in db.blocks && k != id ==> !Bars(db.blocks[k], date, table, zone, start, until) {
      forall k | k in after && after[k].date == date && after[k].AppliesTo(table, zone)
        ensures !after[k].Covers(start, until)
      {
        assert !Bars(db.blocks[k], date, table, zone, start, until);
      }
    }
  }

  lemma ReseatedKeepsZones(db: Db, today: int, id: Id, moved: Booking, left: Id, next: Id, release: bool)
    ensures SameZones(db.tables, Reseated(db, today, id, moved, left, next, release).tables)
  {
  }

  /** In a state kept apart, no block on a booking's table or its zone covers its slot. */
  lemma ApartSlotIsUnblocked(db: Db, id: Id, t: Id)
    requires Apart(db) && id in db.bookings && db.bookings[id].Active() && t in db.bookings[id].Tables()
    ensures var b := db.bookings[id]; Unblocked(db.blocks, b.date, t, ZoneOf(db.tables, t), b.time.value, End(b))
  {
  }

  /** The waiter's transfer asks nobody about blocks: it keeps bookings out of them exactly when no block
      covers the slot at the new table. */
  lemma WaiterTransferExactly(db: Db, today: int, id: Id, next: Id)
    requires Apart(db) && WaiterTransfer(db, today, id, next).Done?
    ensures var b := db.bookings[id];
            Apart(WaiterTransfer(db, today, id, next).db)
            <==> Unblocked(db.blocks, b.date, next, db.tables[next].zone, b.time.value, End(b))
  {
    var b, after := db.bookings[id], WaiterTransfer(db, today, id, next).db;
    var release := b.checkedIn && db.tables[b.table.value].status in {Occupied, Cleaning};
    var moved := Reassigned(b, next).value.(checkedIn := false);
    assert after == Reseated(db, today, id, moved, b.table.value, next, release);
    ReseatedKeepsZones(db, today, id, moved, b.table.value, next, release);
    if Unblocked(db.blocks, b.date, next, db.tables[next].zone, b.time.value, End(b)) {
      ReassignedKeepsApart(db, id, next, false, after);
    }
    if Apart(after) {
      ApartSlotIsUnblocked(after, id, next);
    }
  }

  /** Approving a new time keeps bookings out of blocks exactly when every table of the booking is unblocked. */
  lemma RescheduleBlocksExactly(db: Db, today: int, request: Id)
    requires Apart(db) && ApproveReschedule(db, today, request).Done?
    ensures var b := AtNewTime(db.bookings[db.moves[request].booking], db.moves[request]);
            && Written(b)
            && (Apart(ApproveReschedule(db, today, request).db) <==>
                forall t :: t in b.Tables() ==>
                  Unblocked(db.blocks, b.date, t, ZoneOf(db.tables, t), b.time.value, End(b)))
  {
    var id, after := db.moves[request].booking, ApproveReschedule(db, today, request).db;
    var b := after.bookings[id];
    assert b.Tables() == db.bookings[id].Tables();
    if forall t :: t in b.Tables() ==> Unblocked(db.blocks, b.date, t, ZoneOf(db.tables, t), b.time.value, End(b)) {
      UnblockedSlotKeepsApart(db, id, b, after);
    }
    if Apart(after) {
      forall t | t in b.Tables() ensures Unblocked(db.blocks, b.date, t, ZoneOf(db.tables, t), b.time.value, End(b)) {
        ApartSlotIsUnblocked(after, id, t);
      }
    }
  }

  lemma PlainRescheduleKeepsApart(db: Db, today: int, request: Id)
    requires Apart(db) && AllPlain(db.bookings)
    ensures var o := ApproveReschedule(db, today, request); o.Done? ==> Apart(o.db)
  {
    var o := ApproveReschedule(db, today, request);
    if o.Done? {
      RescheduleBlocksExactly(db, today, request);
    }
  }
}
