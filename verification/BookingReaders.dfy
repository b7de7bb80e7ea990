/** Old rows, whose length the services read in different ways: what an operation judged by one reader keeps, as
    that reader sees it, and when it keeps what another reader sees. */
module BookingReaders {
  import opened Basics
  import opened BookingTime
  import opened Bookings
  import opened BookingSlots
  import opened BookingBlocks
  import opened BookingEffects

  /** Two rows in each other's way, as one reader sees them; a row that reader cannot read is in everyone's way. */
  ghost predicate CollideFor(reader: Reader, a: Booking, b: Booking) {
    && a.Active() && b.Active() && a.date == b.date
    && (exists t :: t in a.Tables() && t in b.Tables())
    && (a.time.None? || a.Until(reader).None? || b.Clashes(reader, a.time.value, a.Until(reader).value))
  }

  ghost predicate SoundFor(reader: Reader, bookings: map<Id, Booking>) {
    forall i, j :: i in bookings && j in bookings && i != j ==> !CollideFor(reader, bookings[i], bookings[j])
  }

  /** On rows as creations write them, all readers see the same, and it is what the run theorems speak of. */
  lemma WrittenRowsLookAlike(reader: Reader, bookings: map<Id, Booking>)
    requires AllWritten(bookings)
    ensures SoundFor(reader, bookings) <==> NoDoubleBooking(bookings)
  {
    forall i, j | i in bookings && j in bookings
      ensures CollideFor(reader, bookings[i], bookings[j]) <==> Collide(bookings[i], bookings[j])
    {
      WrittenSlot(bookings[i], reader);
      WrittenSlot(bookings[j], reader);
    }
  }

  /** The row is readable, and its slot is clear at each of its tables, as the reader sees it. */
  ghost predicate ClearFor(reader: Reader, bookings: map<Id, Booking>, id: Id, b: Booking) {
    && b.time.Some? && b.Until(reader).Some?
    && forall t :: t in b.Tables() ==> Clear(bookings, t, b.date, Some(id), reader, b.time.value, b.Until(reader).value)
  }

  lemma ClearRowKeepsSound(reader: Reader, bookings: map<Id, Booking>, id: Id, b: Booking)
    requires SoundFor(reader, bookings) && ClearFor(reader, bookings, id, b)
    ensures SoundFor(reader, bookings[id := b])
  {
    forall j | j in bookings && j != id && bookings[j].Active() && bookings[j].date == b.date
               && exists t :: t in b.Tables() && t in bookings[j].Tables()
      ensures !bookings[j].Clashes(reader, b.time.value, b.Until(reader).value)
    {
      var t :| t in b.Tables() && t in bookings[j].Tables();
      assert bookings[j].Holds(t, b.date);
    }
  }

  lemma SoundRowIsClear(reader: Reader, bookings: map<Id, Booking>, id: Id, b: Booking)
    requires SoundFor(reader, bookings[id := b]) && b.Active() && b.time.Some? && b.Until(reader).Some?
    ensures ClearFor(reader, bookings, id, b)
  {
    forall t, j | t in b.Tables() && j in bookings && j != id && bookings[j].Holds(t, b.date)
      ensures !bookings[j].Clashes(reader, b.time.value, b.Until(reader).value)
    {
      assert !CollideFor(reader, bookings[id := b][id], bookings[id := b][j]);
    }
  }

  /** A row moved to one other table, with the same slot. */
  lemma MovedRow(reader: Reader, bookings: map<Id, Booking>, id: Id, was: Booking, b: Booking, next: Id)
    requires MovedTo(was, b, next) && was.time.Some? && was.Until(reader).Some?
    ensures b.Until(reader) == was.Until(reader)
    ensures ClearFor(reader, bookings, id, b) <==>
            Clear(bookings, next, was.date, Some(id), reader, was.time.value, was.Until(reader).value)
  {
    assert next in b.Tables();
  }

  /** A move judged by the blocks service keeps tables from being promised twice on any rows, however old, as that
      service reads them. */
  lemma TransferKeepsWhatBlocksSee(db: Db, today: int, id: Id, next: Id)
    requires SoundFor(BlocksReader, db.bookings) && TransferBooking(db, today, id, next).Done?
    ensures SoundFor(BlocksReader, TransferBooking(db, today, id, next).db.bookings)
  {
    var was, after := db.bookings[id], TransferBooking(db, today, id, next).db.bookings;
    TransferredBooking(db, today, id, next);
    MovedRow(BlocksReader, db.bookings, id, was, after[id], next);
    assert after == db.bookings[id := after[id]];
    ClearRowKeepsSound(BlocksReader, db.bookings, id, after[id]);
  }

  /** As another service reads them it does so exactly when the next table is clear in that service's eyes too. */
  lemma TransferAsOthersSee(reader: Reader, db: Db, today: int, id: Id, next: Id)
    requires SoundFor(reader, db.bookings) && TransferBooking(db, today, id, next).Done?
    requires db.bookings[id].Until(reader).Some?
    ensures SoundFor(reader, TransferBooking(db, today, id, next).db.bookings) <==>
            var b := db.bookings[id];
            Clear(db.bookings, next, b.date, Some(id), reader, b.time.value, b.Until(reader).value)
  {
    var was, after := db.bookings[id], TransferBooking(db, today, id, next).db.bookings;
    TransferredBooking(db, today, id, next);
    MovedRow(reader, db.bookings, id, was, after[id], next);
    assert after == db.bookings[id := after[id]];
    RowStepExactly(reader, db.bookings, id, after[id]);
  }

  /** Likewise an approved change of table, judged by the requests service. */
  lemma ChangeKeepsWhatRequestsSee(db: Db, today: int, request: Id, next: Id)
    requires SoundFor(RequestsReader, db.bookings) && ApproveTableChange(db, today, request, next).Done?
    ensures SoundFor(RequestsReader, ApproveTableChange(db, today, request, next).db.bookings)
  {
    var id, after := db.changes[request].booking, ApproveTableChange(db, today, request, next).db.bookings;
    ChangedTable(db, today, request, next);
    MovedRow(RequestsReader, db.bookings, id, db.bookings[id], after[id], next);
    assert after == db.bookings[id := after[id]];
    ClearRowKeepsSound(RequestsReader, db.bookings, id, after[id]);
  }

  /** As another service reads them it does so exactly when the next table is clear in that service's eyes too. */
  lemma ChangeAsOthersSee(reader: Reader, db: Db, today: int, request: Id, next: Id)
    requires SoundFor(reader, db.bookings) && ApproveTableChange(db, today, request, next).Done?
    requires db.bookings[db.changes[request].booking].Until(reader).Some?
    ensures SoundFor(reader, ApproveTableChange(db, today, request, next).db.bookings) <==>
            var b := db.bookings[db.changes[request].booking];
            Clear(db.bookings, next, b.date, Some(db.changes[request].booking), reader,
                  b.time.value, b.Until(reader).value)
  {
    var id, after := db.changes[request].booking, ApproveTableChange(db, today, request, next).db.bookings;
    ChangedTable(db, today, request, next);
    MovedRow(reader, db.bookings, id, db.bookings[id], after[id], next);
    assert after == db.bookings[id := after[id]];
    RowStepExactly(reader, db.bookings, id, after[id]);
  }

  /** A readable active row may be written exactly where the reader sees its slot clear. */
  lemma RowStepExactly(reader: Reader, bookings: map<Id, Booking>, id: Id, b: Booking)
    requires SoundFor(reader, bookings) && b.Active() && b.time.Some? && b.Until(reader).Some?
    ensures SoundFor(reader, bookings[id := b]) <==> ClearFor(reader, bookings, id, b)
  {
    if ClearFor(reader, bookings, id, b) { ClearRowKeepsSound(reader, bookings, id, b); }
    if SoundFor(reader, bookings[id := b]) { SoundRowIsClear(reader, bookings, id, b); }
  }

  /** A waiter's move takes a row without stored minutes for two hours, whatever its remarks say; any reader sees
      tables promised once exactly when the next table is clear in its eyes. */
  lemma WaiterAsOthersSee(reader: Reader, db: Db, today: int, id: Id, next: Id)
    requires SoundFor(reader, db.bookings) && WaiterTransfer(db, today, id, next).Done?
    requires db.bookings[id].Until(reader).Some?
    ensures SoundFor(reader, WaiterTransfer(db, today, id, next).db.bookings) <==>
            var b := db.bookings[id];
            Clear(db.bookings, next, b.date, Some(id), reader, b.time.value, b.Until(reader).value)
  {
    var was, after := db.bookings[id], WaiterTransfer(db, today, id, next).db.bookings;
    WaiterMovedBooking(db, today, id, next);
    MovedRow(reader, db.bookings, id, was, after[id], next);
    assert after == db.bookings[id := after[id]];
    RowStepExactly(reader, db.bookings, id, after[id]);
  }

  // ----- Creation, approval and closings

  /** The search every creation makes, with the rows as the reader sees them. */
  ghost predicate DraftClear(reader: Reader, bookings: map<Id, Booking>, ids: set<Id>, draft: Draft)
    requires ParseTime(draft.time).Some?
  {
    forall t :: t in ids ==>
      Clear(bookings, t, draft.date, None, reader, ParseTime(draft.time).value, draft.Until())
  }

  /** Among rows of any age a creation keeps tables from being promised twice, as a reader sees them, exactly when
      the search is clear in its eyes. */
  lemma PlaceAsOthersSee(reader: Reader, db: Db, today: int, table: Id, ids: set<Id>, assignments: map<Id, bool>,
                         draft: Draft, status: BookingStatus, id: Id)
    requires SoundFor(reader, db.bookings) && ids == {table} + assignments.Keys
    requires status == Pending || status == Approved
    requires Place(db, today, table, ids, assignments, draft, status, id).Done?
    ensures SoundFor(reader, Place(db, today, table, ids, assignments, draft, status, id).db.bookings) <==>
            DraftClear(reader, db.bookings, ids, draft)
  {
    var b := NewBooking(draft, table, assignments, status);
    NewBookingIsWritten(draft, table, assignments, status);
    WrittenSlot(b, reader);
    assert b.Tables() == ids;
    RowStepExactly(reader, db.bookings, id, b);
    ExceptNobody(reader, db.bookings, ids, draft, id);
  }

  lemma ExceptNobody(reader: Reader, bookings: map<Id, Booking>, ids: set<Id>, draft: Draft, id: Id)
    requires id !in bookings && ParseTime(draft.time).Some?
    ensures DraftClear(reader, bookings, ids, draft) <==>
            forall t :: t in ids ==>
              Clear(bookings, t, draft.date, Some(id), reader, ParseTime(draft.time).value, draft.Until())
  {
    forall t | t in ids
      ensures Clear(bookings, t, draft.date, None, reader, ParseTime(draft.time).value, draft.Until()) <==>
              Clear(bookings, t, draft.date, Some(id), reader, ParseTime(draft.time).value, draft.Until())
    {
      assert forall j :: j in bookings ==> Some(j) != Some(id);
    }
  }

  /** As the bookings service sees them, it always does. */
  lemma PlaceKeepsWhatBookingsSee(db: Db, today: int, table: Id, ids: set<Id>, assignments: map<Id, bool>,
                                  draft: Draft, status: BookingStatus, id: Id)
    requires SoundFor(BookingsReader, db.bookings) && ids == {table} + assignments.Keys
    requires status == Pending || status == Approved
    requires Place(db, today, table, ids, assignments, draft, status, id).Done?
    ensures SoundFor(BookingsReader, Place(db, today, table, ids, assignments, draft, status, id).db.bookings)
  {
    PlaceAsOthersSee(BookingsReader, db, today, table, ids, assignments, draft, status, id);
  }

  /** A row with the same slot, however it is read, that is active only if it was. */
  ghost predicate LooksKept(was: Booking, b: Booking) { KeepsSlot(was, b) && b.remarks == was.remarks }

  lemma LookKeepsSound(reader: Reader, bookings: map<Id, Booking>, id: Id, b: Booking)
    requires SoundFor(reader, bookings) && id in bookings && LooksKept(bookings[id], b)
    ensures SoundFor(reader, bookings[id := b])
  {
    var was := bookings[id];
    assert b.Until(reader) == was.Until(reader) && b.Tables() == was.Tables();
    forall j | j in bookings && j != id
      ensures !CollideFor(reader, b, bookings[j]) && !CollideFor(reader, bookings[j], b)
    {
      assert !CollideFor(reader, was, bookings[j]) && !CollideFor(reader, bookings[j], was);
    }
  }

  /** Approval and arrival keep what any reader sees, whatever the age of the rows. */
  lemma TransitKeepsWhatAllSee(reader: Reader, db: Db, today: int, id: Id, transition: Transition)
    requires SoundFor(reader, db.bookings) && Transit(db, today, id, transition).Done?
    ensures SoundFor(reader, Transit(db, today, id, transition).db.bookings)
  {
    var after := Transit(db, today, id, transition).db.bookings;
    TransitChangesOneRow(db, today, id, transition);
    LookKeepsSound(reader, db.bookings, id, after[id]);
  }

  /** So do closings. */
  lemma CloseKeepsWhatAllSee(reader: Reader, db: Db, today: int, id: Id, closing: Closing)
    requires SoundFor(reader, db.bookings) && Close(db, today, id, closing).Done?
    ensures SoundFor(reader, Close(db, today, id, closing).db.bookings)
  {
    var after := Close(db, today, id, closing).db.bookings;
    CloseChangesOneRow(db, today, id, closing);
    LookKeepsSound(reader, db.bookings, id, after[id]);
  }

  // ----- A new time

  /** Any reader sees a new time promise tables once exactly when the slot asked for is clear, in its eyes, at
      every table of the booking. */
  lemma RescheduleAsOthersSee(reader: Reader, db: Db, today: int, request: Id)
    requires SoundFor(reader, db.bookings) && ApproveReschedule(db, today, request).Done?
    requires AtNewTime(db.bookings[db.moves[request].booking], db.moves[request]).Until(reader).Some?
    ensures var id := db.moves[request].booking;
            SoundFor(reader, ApproveReschedule(db, today, request).db.bookings)
            <==> ClearFor(reader, db.bookings, id, AtNewTime(db.bookings[id], db.moves[request]))
  {
    var id, after := db.moves[request].booking, ApproveReschedule(db, today, request).db.bookings;
    RescheduledBooking(db, today, request);
    assert after == db.bookings[id := after[id]];
    RowStepExactly(reader, db.bookings, id, after[id]);
  }

  /** Without banquets it does, on rows of any age, as the requests service that judges it reads them. */
  lemma PlainRescheduleKeepsWhatRequestsSee(db: Db, today: int, request: Id)
    requires SoundFor(RequestsReader, db.bookings) && AllPlain(db.bookings)
    requires ApproveReschedule(db, today, request).Done?
    ensures SoundFor(RequestsReader, ApproveReschedule(db, today, request).db.bookings)
  {
    var id := db.moves[request].booking;
    var b := AtNewTime(db.bookings[id], db.moves[request]);
    RescheduledBooking(db, today, request);
    NarrowSearchIsFull(db, today, request);
    RescheduleAsOthersSee(RequestsReader, db, today, request);
  }

  lemma NarrowSearchIsFull(db: Db, today: int, request: Id)
    requires AllPlain(db.bookings) && ApproveReschedule(db, today, request).Done?
    ensures var id := db.moves[request].booking;
            ClearFor(RequestsReader, db.bookings, id, AtNewTime(db.bookings[id], db.moves[request]))
  {
    var id := db.moves[request].booking;
    var b := AtNewTime(db.bookings[id], db.moves[request]);
    assert b.Tables() == {b.table.value};
    forall j | j in db.bookings && j != id && db.bookings[j].Holds(b.table.value, b.date)
      ensures !db.bookings[j].Clashes(RequestsReader, b.time.value, b.Until(RequestsReader).value)
    {
      assert db.bookings[j].HoldsOwn(b.table.value, b.date);
    }
  }

  // ----- Planned unavailability

  /** The booking sits in the block as the reader sees it; a row it cannot read might be anywhere. */
  ghost predicate SitsFor(reader: Reader, tables: map<Id, Table>, b: Booking, block: Block) {
    && b.Active() && b.date == block.date
    && (exists t :: t in b.Tables() && block.AppliesTo(t, ZoneOf(tables, t)))
    && (block.span.Some? ==>
          b.time.None? || b.Until(reader).None? || block.Covers(b.time.value, b.Until(reader).value))
  }

  ghost predicate ApartFor(reader: Reader, db: Db) {
    forall i, k :: i in db.bookings && k in db.blocks ==> !SitsFor(reader, db.tables, db.bookings[i], db.blocks[k])
  }

  /** On written rows it is what the run theorems speak of. */
  lemma WrittenRowsSitAlike(reader: Reader, db: Db)
    requires AllWritten(db.bookings)
    ensures ApartFor(reader, db) <==> KeptApart(db.tables, db.bookings, db.blocks)
  {
    forall i, k | i in db.bookings && k in db.blocks
      ensures SitsFor(reader, db.tables, db.bookings[i], db.blocks[k]) <==>
              SitsIn(db.tables, db.bookings[i], db.blocks[k])
    {
      WrittenSlot(db.bookings[i], reader);
    }
  }

  /** The bookings a new block is compared with, as the reader sees them. */
  ghost predicate OccupiesFor(reader: Reader, tables: map<Id, Table>, b: Booking, target: Target, date: int,
                              span: Option<(nat, nat)>) {
    && b.Active() && b.date == date
    && (exists t :: t in b.Tables() &&
          (target == TableTarget(t)
           || (t in tables && tables[t].zone.Some? && target == ZoneTarget(tables[t].zone.value))))
    && (span.Some? ==> b.Clashes(reader, span.value.0, span.value.1))
  }

  lemma NewBlockSeen(reader: Reader, tables: map<Id, Table>, b: Booking, target: Target, date: int,
                     start: Option<string>, end: Option<string>, block: Block)
    requires Range(start, end).Some? && block.target == target && block.date == date
    requires forall from, until :: block.Covers(from, until) <==>
               start.None? || Overlap(ParseTime(start.value).value, ParseTime(end.value).value, from, until)
    requires block.span.Some? <==> start.Some?
    ensures SitsFor(reader, tables, b, block) <==>
            OccupiesFor(reader, tables, b, target, date, Range(start, end).value)
  {
    forall t | t in b.Tables()
      ensures block.AppliesTo(t, ZoneOf(tables, t)) <==>
              target == TableTarget(t)
              || (t in tables && tables[t].zone.Some? && target == ZoneTarget(tables[t].zone.value))
    {
    }
  }

  /** A block keeps bookings of any age out of it, as a reader sees them, exactly when the comparison finds none in
      its eyes. */
  lemma CreateBlockAsOthersSee(reader: Reader, db: Db, today: int, target: Option<Target>, date: int,
                               start: Option<string>, end: Option<string>, reasoned: bool, id: Id)
    requires ApartFor(reader, db) && CreateBlock(db, today, target, date, start, end, reasoned, id).Done?
    ensures ApartFor(reader, CreateBlock(db, today, target, date, start, end, reasoned, id).db) <==>
            forall i :: i in db.bookings ==>
              !OccupiesFor(reader, db.tables, db.bookings[i], target.value, date, Range(start, end).value)
  {
    var after := CreateBlock(db, today, target, date, start, end, reasoned, id).db;
    PlannedBlock(db, today, target, date, start, end, reasoned, id);
    forall i | i in db.bookings
      ensures SitsFor(reader, db.tables, db.bookings[i], after.blocks[id]) <==>
              OccupiesFor(reader, db.tables, db.bookings[i], target.value, date, Range(start, end).value)
    {
      NewBlockSeen(reader, db.tables, db.bookings[i], target.value, date, start, end, after.blocks[id]);
    }
    BlockStepExactly(reader, db, after, id);
  }

  lemma BlockStepExactly(reader: Reader, db: Db, after: Db, id: Id)
    requires ApartFor(reader, db) && id in after.blocks && after == db.(blocks := db.blocks[id := after.blocks[id]])
    ensures ApartFor(reader, after) <==>
            forall i :: i in db.bookings ==> !SitsFor(reader, db.tables, db.bookings[i], after.blocks[id])
  {
    forall i, k | i in db.bookings && k in after.blocks && k != id
      ensures !SitsFor(reader, db.tables, db.bookings[i], after.blocks[k])
    {
      assert k in db.blocks && after.blocks[k] == db.blocks[k];
    }
  }

  /** As the blocks service sees them it always does, and so does a block for a whole day as anyone sees them. */
  lemma CreateBlockKeepsWhatBlocksSee(reader: Reader, db: Db, today: int, target: Option<Target>, date: int,
                                      start: Option<string>, end: Option<string>, reasoned: bool, id: Id)
    requires ApartFor(reader, db) && CreateBlock(db, today, target, date, start, end, reasoned, id).Done?
    requires reader == BlocksReader || start.None?
    ensures ApartFor(reader, CreateBlock(db, today, target, date, start, end, reasoned, id).db)
  {
    CreateBlockAsOthersSee(reader, db, today, target, date, start, end, reasoned, id);
    forall i | i in db.bookings
      ensures !OccupiesFor(reader, db.tables, db.bookings[i], target.value, date, Range(start, end).value)
    {
      assert !Occupies(db.tables, db.bookings[i], target.value, date, Range(start, end).value);
    }
  }

  // ----- Two old rows

  /** An old row at noon whose remarks bracket five hours but state no length. */
  ghost function LongStay(assignments: map<Id, bool>, table: Id): Booking {
    Booking(Some(table), assignments, 1, Some(720), None, Remarks(Some(Some(300)), None), Approved, false, 2,
            None, None)
  }

  /** An old row at four with nothing in its remarks. */
  ghost function PlainStay(): Booking {
    Booking(Some(2), map[], 1, Some(960), None, Remarks(None, None), Approved, false, 2, None, None)
  }

  lemma StayLengths(assignments: map<Id, bool>, table: Id)
    ensures LongStay(assignments, table).Until(BookingsReader) == Some(1035)
    ensures LongStay(assignments, table).Until(BlocksReader) == Some(855)
    ensures PlainStay().Until(BookingsReader) == Some(1095) == PlainStay().Until(BlocksReader)
  {
    StoredLength(300);
  }

  ghost function OldRows(): Db {
    var table := Table(None, true, TableStatus.Free, 4);
    Db(map[1 := table, 2 := table], map[], map[], map[1 := LongStay(map[], 1), 2 := PlainStay()], map[], map[], map[])
  }

  lemma OldRowsMayBeMoved()
    ensures MayRelocate(OldRows(), 0, 1, 2)
  {
    var db := OldRows();
    StayLengths(map[], 1);
    assert Clear(db.bookings, 2, 1, Some(1), BlocksReader, 720, 855);
    assert CanReceive(db, db.bookings[1], 1, 2, BlocksReader);
  }

  lemma OldRowsMayMove()
    ensures TransferBooking(OldRows(), 0, 1, 2).Done?
    ensures TransferBooking(OldRows(), 0, 1, 2).db.bookings == map[1 := LongStay(map[2 := true], 2), 2 := PlainStay()]
  {
    var db := OldRows();
    OldRowsMayBeMoved();
    assert Reassigned(db.bookings[1], 2) == Some(LongStay(map[2 := true], 2));
  }

  lemma OldRowsStandApart()
    ensures SoundFor(BookingsReader, map[1 := LongStay(map[], 1), 2 := PlainStay()])
  {
    var a, b := LongStay(map[], 1), PlainStay();
    assert a.Tables() == {1} && b.Tables() == {2};
    assert !CollideFor(BookingsReader, a, b) && !CollideFor(BookingsReader, b, a);
  }

  lemma MovedRowsCollide()
    ensures !SoundFor(BookingsReader, map[1 := LongStay(map[2 := true], 2), 2 := PlainStay()])
  {
    var bookings := map[1 := LongStay(map[2 := true], 2), 2 := PlainStay()];
    StayLengths(map[2 := true], 2);
    assert 2 in bookings[1].Tables() && 2 in bookings[2].Tables();
    assert CollideFor(BookingsReader, bookings[1], bookings[2]);
  }

  /** The blocks service takes the long stay for two hours and moves it onto the other booking. */
  lemma OldRowsCanCollide()
    ensures SoundFor(BookingsReader, OldRows().bookings) && TransferBooking(OldRows(), 0, 1, 2).Done?
    ensures !SoundFor(BookingsReader, TransferBooking(OldRows(), 0, 1, 2).db.bookings)
  {
    OldRowsStandApart();
    OldRowsMayMove();
    MovedRowsCollide();
  }
}
