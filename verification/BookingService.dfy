/** The booking operations as they run: rows are searched in loops, then changed and saved one by one.
    Each is proved to do exactly what the functions in Bookings say. */
module BookingService {
  import opened Basics
  import opened BookingTime
  import opened Bookings
  import opened BookingLaws

  function After(db: Db, outcome: Outcome): Db { if outcome.Done? then outcome.db else db }

  lemma MarkOne(tables: map<Id, Table>, done: set<Id>, id: Id, status: TableStatus)
    ensures Mark(Mark(tables, done, status), {id}, status) == Mark(tables, done + {id}, status)
  {
  }

  lemma SynchronizeOne(tables: map<Id, Table>, bookings: map<Id, Booking>, done: set<Id>, id: Id, date: int,
                       release: bool)
    ensures Synchronized(Synchronized(tables, bookings, done, date, release), bookings, {id}, date, release)
            == Synchronized(tables, bookings, done + {id}, date, release)
  {
  }

  lemma MovedTwice(db: Db, today: int, id: Id, first: Booking, moved: Booking, left: Id, next: Id, release: bool)
    ensures Reseated(db.(bookings := db.bookings[id := first]), today, id, moved, left, next, release)
            == Reseated(db, today, id, moved, left, next, release)
  {
    assert db.bookings[id := first][id := moved] == db.bookings[id := moved];
  }

  class Reservations {
    var tables: map<Id, Table>
    var numbers: map<string, Id>
    var zones: map<Id, Zone>
    var bookings: map<Id, Booking>
    var blocks: map<Id, Block>
    var changes: map<Id, ChangeRequest>
    var moves: map<Id, MoveRequest>

    function State(): Db
      reads this
    {
      Db(tables, numbers, zones, bookings, blocks, changes, moves)
    }

    // ----- Searches

    method HasConflict(table: Id, date: int, except: Option<Id>, reader: Reader, start: int, until: int)
      returns (found: bool)
      ensures found <==> !Clear(bookings, table, date, except, reader, start, until)
    {
      var todo := bookings.Keys;
      while todo != {}
        invariant todo <= bookings.Keys
        invariant forall id ::
                    id in bookings && id !in todo && Some(id) != except && bookings[id].Holds(table, date) ==>
                    !bookings[id].Clashes(reader, start, until)
      {
        var id :| id in todo;
        todo := todo - {id};
        if Some(id) != except && bookings[id].Holds(table, date) && bookings[id].Clashes(reader, start, until) {
          return true;
        }
      }
      return false;
    }

    method HasBlock(date: int, table: Id, zone: Option<Id>, start: int, until: int) returns (found: bool)
      ensures found <==> !Unblocked(blocks, date, table, zone, start, until)
    {
      var todo := blocks.Keys;
      while todo != {}
        invariant todo <= blocks.Keys
        invariant forall id ::
                    id in blocks && id !in todo && blocks[id].date == date && blocks[id].AppliesTo(table, zone) ==>
                    !blocks[id].Covers(start, until)
      {
        var id :| id in todo;
        todo := todo - {id};
        if blocks[id].date == date && blocks[id].AppliesTo(table, zone) && blocks[id].Covers(start, until) {
          return true;
        }
      }
      return false;
    }

    method HasOtherBooking(date: int, phone: Option<nat>, device: Option<nat>, except: Option<Id>) returns (found: bool)
      ensures found <==> GuestTaken(bookings, date, phone, device, except)
      ensures found <==> !GuestFree(bookings, date, phone, device, except)
    {
      GuestFreeMeans(bookings, date, phone, device, except);
      var todo := bookings.Keys;
      while todo != {}
        invariant todo <= bookings.Keys
        invariant forall id :: id in bookings && id !in todo && Some(id) != except ==>
                    !bookings[id].IsFor(date, phone, device)
      {
        var id :| id in todo;
        todo := todo - {id};
        if Some(id) != except && bookings[id].IsFor(date, phone, device) { return true; }
      }
      return false;
    }

    method RemainingStatus(table: Id, date: int) returns (status: TableStatus)
      ensures status == Remaining(bookings, table, date)
    {
      status := Free;
      var todo := bookings.Keys;
      while todo != {}
        invariant todo <= bookings.Keys
        invariant status == Free || status == Awaiting
        invariant forall id :: id in bookings && id !in todo && bookings[id].Holds(table, date) ==>
                    bookings[id].status != Approved
        invariant status == Awaiting <==> exists id :: id in bookings && id !in todo && bookings[id].Holds(table, date)
      {
        var id :| id in todo;
        todo := todo - {id};
        if bookings[id].Holds(table, date) {
          if bookings[id].status == Approved { return Reserved; }
          status := Awaiting;
        }
      }
    }

    // ----- Table statuses

    method SetTableStatusOnlyForToday(id: Id, status: TableStatus, date: int, today: int)
      modifies `tables
      ensures tables == MarkToday(old(tables), {id}, status, date, today)
    {
      if date == today && id in tables && Quiet(tables[id].status) {
        tables := tables[id := tables[id].(status := status)];
      }
    }

    method SynchronizeTable(id: Id, date: int, release: bool)
      modifies `tables
      ensures tables == Synchronized(old(tables), bookings, {id}, date, release)
    {
      if id in tables && tables[id].status != Closed && (release || Quiet(tables[id].status)) {
        var status := RemainingStatus(id, date);
        if tables[id].status != status {
          tables := tables[id := tables[id].(status := status)];
        }
      }
    }

    method SynchronizeSet(ids: set<Id>, date: int, release: bool)
      modifies `tables
      ensures tables == Synchronized(old(tables), bookings, ids, date, release)
    {
      var todo := ids;
      while todo != {}
        invariant todo <= ids
        invariant tables == Synchronized(old(tables), bookings, ids - todo, date, release)
      {
        var t :| t in todo;
        assert ids - (todo - {t}) == ids - todo + {t};
        SynchronizeOne(old(tables), bookings, ids - todo, t, date, release);
        todo := todo - {t};
        SynchronizeTable(t, date, release);
      }
      assert ids - {} == ids;
    }

    // ----- Creation

    method AllFree(ids: seq<Id>, draft: Draft) returns (free: bool)
      requires ParseTime(draft.time).Some?
      ensures free <==> && (forall t :: t in ToSet(ids) ==> CanBeBooked(State(), t))
                        && GuestFree(bookings, draft.date, draft.phone, draft.device, None)
                        && (forall t :: t in ToSet(ids) ==>
                              Clear(bookings, t, draft.date, None, BookingsReader, ParseTime(draft.time).value,
                                    draft.Until()))
    {
      for i := 0 to |ids|
        invariant forall k :: 0 <= k < i ==> CanBeBooked(State(), ids[k])
      {
        if !CanBeBooked(State(), ids[i]) { return false; }
      }
      var other := HasOtherBooking(draft.date, draft.phone, draft.device, None);
      if other { return false; }
      for i := 0 to |ids|
        invariant forall k :: 0 <= k < i ==>
                    Clear(bookings, ids[k], draft.date, None, BookingsReader, ParseTime(draft.time).value,
                          draft.Until())
      {
        var found := HasConflict(ids[i], draft.date, None, BookingsReader, ParseTime(draft.time).value, draft.Until());
        if found { return false; }
      }
      return true;
    }

    method Place(today: int, table: Id, ids: seq<Id>, assignments: map<Id, bool>, draft: Draft, status: BookingStatus,
                 id: Id)
      returns (ok: bool)
      modifies `bookings, `tables
      ensures var o := Bookings.Place(old(State()), today, table, ToSet(ids), assignments, draft, status, id);
              ok == o.Done? && State() == After(old(State()), o)
    {
      if id in bookings || ParseTime(draft.time).None? { return false; }
      var free := AllFree(ids, draft);
      if !free { return false; }
      bookings := bookings[id := NewBooking(draft, table, assignments, status)];
      MarkTables(ids, if status == Approved then Reserved else Awaiting, draft.date, today);
      return true;
    }

    method MarkTables(ids: seq<Id>, status: TableStatus, date: int, today: int)
      modifies `tables
      ensures tables == MarkToday(old(tables), ToSet(ids), status, date, today)
    {
      for i := 0 to |ids|
        invariant date != today ==> tables == old(tables)
        invariant date == today ==> tables == Mark(old(tables), ToSet(ids[..i]), status)
      {
        assert ToSet(ids[..i + 1]) == ToSet(ids[..i]) + {ids[i]};
        MarkOne(old(tables), ToSet(ids[..i]), ids[i], status);
        SetTableStatusOnlyForToday(ids[i], status, date, today);
      }
      assert ids[..|ids|] == ids;
    }

    method Create(today: int, table: Option<Id>, number: Option<string>, draft: Draft, seats: int, admitted: bool,
                  newTable: Id, id: Id)
      returns (ok: bool)
      modifies `bookings, `tables, `numbers
      ensures var o := Bookings.Create(old(State()), today, table, number, draft, seats, admitted, newTable, id);
              ok == o.Done? && State() == After(old(State()), o)
      ensures ok ==> !GuestTaken(old(bookings), draft.date, draft.phone, draft.device, None)
    {
      GuestFreeMeans(bookings, draft.date, draft.phone, draft.device, None);
      if !admitted { return false; }
      var found := Resolve(State(), table, number);
      if found.Some? {
        assert (ToSet([found.value])) == {found.value};
        ok := Place(today, found.value, [found.value], map[], draft, Pending, id);
        return;
      }
      if !Named(number) || newTable in tables { return false; }
      var before := State();
      tables := tables[newTable := Table(None, true, Free, seats)];
      numbers := numbers[number.value := newTable];
      assert State() == WithTable(before, newTable, number.value, seats);
      assert (ToSet([newTable])) == {newTable};
      ok := Place(today, newTable, [newTable], map[], draft, Pending, id);
      if !ok { tables, numbers := before.tables, before.numbers; }
    }

    /** The check made before every creation. */
    method AssertBookable(today: int, table: Option<Id>, number: Option<string>, draft: Draft) returns (bookable: bool)
      ensures bookable <==> Bookable(State(), today, table, number, draft)
    {
      var found := Checked(State(), table, number);
      if found.None? || found.value !in tables { return true; }
      if ParseTime(draft.time).None? || draft.date < today { return false; }
      var start := ParseTime(draft.time).value;
      var blocked := HasBlock(draft.date, found.value, tables[found.value].zone, start, draft.Until());
      return !blocked;
    }

    /** A guest's request as it arrives. */
    method RequestBooking(today: int, table: Option<Id>, number: Option<string>, draft: Draft, seats: int,
                          admitted: bool, newTable: Id, id: Id)
      returns (ok: bool)
      modifies `bookings, `tables, `numbers
      ensures var o := GuestRequest(old(State()), today, table, number, draft, seats, admitted, newTable, id);
              ok == o.Done? && State() == After(old(State()), o)
    {
      var named := Submitted(State(), number);
      if named.None? || (table.None? && Blank(named.value)) { return false; }
      var bookable := AssertBookable(today, table, named.value, draft);
      if !bookable { return false; }
      ok := Create(today, table, named.value, draft, seats, admitted, newTable, id);
    }

    method CreateManual(today: int, table: Id, draft: Draft, admitted: bool, id: Id) returns (ok: bool)
      modifies `bookings, `tables
      ensures var o := Bookings.CreateManual(old(State()), today, table, draft, admitted, id);
              ok == o.Done? && State() == After(old(State()), o)
    {
      if !admitted || table !in tables { return false; }
      assert (ToSet([table])) == {table};
      ok := Place(today, table, [table], map[], draft.(device := None), Approved, id);
    }

    method CreateManualBanquet(today: int, ids: seq<Id>, primary: Id, draft: Draft, admitted: bool, id: Id)
      returns (ok: bool)
      modifies `bookings, `tables
      ensures var o := Bookings.CreateManualBanquet(old(State()), today, ids, primary, draft, admitted, id);
              ok == o.Done? && State() == After(old(State()), o)
    {
      var unique := ToSet(ids);
      if |unique| < 2 || |unique| != |ids| || primary !in unique || !admitted
        || !(unique <= tables.Keys)
      {
        return false;
      }
      var assignments := map t | t in unique :: t == primary;
      assert assignments == Assigned(ToSet(ids), primary);
      ok := Place(today, primary, ids, assignments, draft.(device := None), Approved, id);
    }

    // ----- Approval and arrival

    method CoordinatedTransition(today: int, id: Id, seen: Option<Booking>, transition: Transition) returns (ok: bool)
      modifies `bookings, `tables
      ensures var o := CoordinatedTransit(old(State()), today, id, seen, transition);
              ok == o.Done? && State() == After(old(State()), o)
    {
      if id !in bookings || !StillAsSeen(seen, bookings[id]) { return false; }
      if bookings[id].table.None? || !bookings[id].Active() { return false; }
      var booking := bookings[id];
      if booking.status == Approved && (transition == Approve || booking.checkedIn) { return true; }
      var may := MayProceedEverywhere(today, id, transition);
      if !may { return false; }
      bookings := bookings[id := booking.(status := Approved, checkedIn := booking.checkedIn || transition == CheckIn)];
      if booking.date == today {
        MarkSet(booking.Tables(), if transition == Approve then Reserved else Occupied, today);
      }
      return true;
    }

    method MayProceedEverywhere(today: int, id: Id, transition: Transition) returns (may: bool)
      requires id in bookings
      ensures may <==> forall t :: t in bookings[id].Tables() ==> MayProceed(State(), today, id, t, transition)
    {
      var todo := bookings[id].Tables();
      while todo != {}
        invariant todo <= bookings[id].Tables()
        invariant forall t :: t in bookings[id].Tables() && t !in todo ==> MayProceed(State(), today, id, t, transition)
      {
        var t :| t in todo;
        todo := todo - {t};
        var ok := MayProceedAt(today, id, t, transition);
        if !ok { return false; }
      }
      return true;
    }

    method MayProceedAt(today: int, id: Id, t: Id, transition: Transition) returns (may: bool)
      requires id in bookings
      ensures may <==> MayProceed(State(), today, id, t, transition)
    {
      var b := bookings[id];
      if !CanBeBooked(State(), t) { return false; }
      if transition == CheckIn && b.date == today && tables[t].status in {Occupied, Cleaning} { return false; }
      if b.time.None? || b.Until(BookingsReader).None? { return false; }
      var found := HasConflict(t, b.date, Some(id), BookingsReader, b.time.value, b.Until(BookingsReader).value);
      return !found;
    }

    method MarkSet(ids: set<Id>, status: TableStatus, today: int)
      modifies `tables
      ensures tables == Mark(old(tables), ids, status)
    {
      var todo := ids;
      while todo != {}
        invariant todo <= ids
        invariant tables == Mark(old(tables), ids - todo, status)
      {
        var t :| t in todo;
        assert ids - (todo - {t}) == ids - todo + {t};
        MarkOne(old(tables), ids - todo, t, status);
        todo := todo - {t};
        SetTableStatusOnlyForToday(t, status, today, today);
      }
      assert ids - {} == ids;
    }

    // ----- Closings

    method UpdateBookingStatusWithLock(today: int, id: Id, closing: Closing) returns (ok: bool)
      modifies `bookings, `tables
      ensures var o := Close(old(State()), today, id, closing);
              ok == o.Done? && State() == After(old(State()), o)
      ensures ok <==>
              && id in old(bookings) && (closing == NoShow ==> !old(bookings)[id].checkedIn)
              && (closing == Complete ==> InForce(old(bookings)[id]) || old(bookings)[id].status == Completed)
      ensures ok ==> bookings == old(bookings)[id := old(bookings)[id].(status := StatusAfter(closing))]
    {
      ClosedExactly(State(), today, id, closing);
      if Close(State(), today, id, closing).Done? { ClosedLeaves(State(), today, id, closing); }
      if id !in bookings || ClosedRow(bookings[id], closing).None? { return false; }
      if closing == Complete && bookings[id].status == Completed { return true; }
      var booking := ClosedRow(bookings[id], closing).value;
      bookings := bookings[id := booking];
      if booking.date == today {
        SynchronizeSet(booking.Tables(), today, closing == Complete);
      }
      return true;
    }

    // ----- Moves to another table

    /** Points the only assignment at the next table, or adds one; the booking row follows. */
    method SyncSingleTableTransferAssignment(id: Id, next: Id) returns (ok: bool)
      requires id in bookings
      modifies `bookings
      ensures var moved := Reassigned(old(bookings)[id], next);
              ok == moved.Some? && bookings == if ok then old(bookings)[id := moved.value] else old(bookings)
    {
      var b := bookings[id];
      if |b.assignments| > 1 { return false; }
      if |b.assignments| == 1 {
        var t :| t in b.assignments;
        OnlyKey(b.assignments, t);
        if !b.assignments[t] { return false; }
      }
      bookings := bookings[id := b.(table := Some(next), assignments := map[next := true])];
      return true;
    }

    method MayTransferTo(today: int, id: Id, next: Id) returns (may: bool)
      ensures may <==> MayTransfer(State(), today, id, next)
    {
      if id !in bookings || bookings[id].status != Approved || bookings[id].date != today { return false; }
      var b := bookings[id];
      if b.table.None? || b.table.value !in tables || b.time.None? { return false; }
      if !CanBeBooked(State(), next) || tables[next].status != Free || Some(next) == b.table
        || tables[next].seats < b.guests
      {
        return false;
      }
      var start, length := b.time.value, if b.stored.Some? then Whole(b.stored.value) else Missing;
      var found := HasConflict(next, b.date, None, BookingsReader, start, start + NormalizeDuration(length) + CLEANUP);
      return !found;
    }

    method WaiterTransfer(today: int, id: Id, next: Id) returns (ok: bool)
      modifies `bookings, `tables
      ensures var o := Bookings.WaiterTransfer(old(State()), today, id, next);
              ok == o.Done? && State() == After(old(State()), o)
    {
      var may := MayTransferTo(today, id, next);
      if !may { return false; }
      var b := bookings[id];
      var release := b.checkedIn && tables[b.table.value].status in {Occupied, Cleaning};
      ok := SyncSingleTableTransferAssignment(id, next);
      if ok {
        MovedTwice(old(State()), today, id, bookings[id], bookings[id].(checkedIn := false), b.table.value, next,
                   release);
        Reseat(today, id, b.table.value, next, release);
      }
    }

    /** Forgets the arrival of a booking just moved and recomputes both tables. */
    method Reseat(today: int, id: Id, left: Id, next: Id, release: bool)
      requires id in bookings
      modifies `bookings, `tables
      ensures State() == Reseated(old(State()), today, id, old(bookings)[id].(checkedIn := false), left, next, release)
    {
      bookings := bookings[id := bookings[id].(checkedIn := false)];
      SynchronizeTable(left, today, release);
      SynchronizeTable(next, today, false);
    }

    method CanReceiveAt(b: Booking, id: Id, next: Id, reader: Reader) returns (can: bool)
      ensures can <==> CanReceive(State(), b, id, next, reader)
    {
      if !CanBeBooked(State(), next) || Some(next) == b.table || tables[next].seats < b.guests { return false; }
      if b.time.None? || b.Until(reader).None? { return false; }
      var start, until := b.time.value, b.Until(reader).value;
      var conflict := HasConflict(next, b.date, Some(id), reader, start, until);
      if conflict { return false; }
      var blocked := HasBlock(b.date, next, tables[next].zone, start, until);
      return !blocked;
    }

    method MayRelocateTo(today: int, id: Id, next: Id) returns (may: bool)
      ensures may <==> MayRelocate(State(), today, id, next)
    {
      if id !in bookings || !bookings[id].Active() || bookings[id].table.None?
        || bookings[id].date < today
      {
        return false;
      }
      may := CanReceiveAt(bookings[id], id, next, BlocksReader);
    }

    method TransferBooking(today: int, id: Id, next: Id) returns (ok: bool)
      modifies `bookings, `tables
      ensures var o := Bookings.TransferBooking(old(State()), today, id, next);
              ok == o.Done? && State() == After(old(State()), o)
    {
      var may := MayRelocateTo(today, id, next);
      if !may { return false; }
      var left := bookings[id].table.value;
      ok := SyncSingleTableTransferAssignment(id, next);
      if ok && bookings[id].date == today { SynchronizePair(left, next, today); }
    }

    method SynchronizePair(left: Id, next: Id, date: int)
      modifies `tables
      ensures tables == Synchronized(old(tables), bookings, {left} + {next}, date, false)
    {
      SynchronizeOne(tables, bookings, {left}, next, date, false);
      SynchronizeTable(left, date, false);
      SynchronizeTable(next, date, false);
    }

    method MayChangeTo(today: int, request: Id, next: Id) returns (may: bool)
      ensures may <==> MayChange(State(), today, request, next)
    {
      if request !in changes || !changes[request].pending || changes[request].booking !in bookings { return false; }
      var id := changes[request].booking;
      var b := bookings[id];
      if !b.Active() || b.checkedIn || b.table.None? || b.table.value !in tables { return false; }
      may := CanReceiveAt(b, id, next, RequestsReader);
      may := may && !(b.date == today && tables[next].status in {Occupied, Cleaning});
    }

    method ApproveTableChange(today: int, request: Id, next: Id) returns (ok: bool)
      modifies `bookings, `tables, `changes
      ensures var o := Bookings.ApproveTableChange(old(State()), today, request, next);
              ok == o.Done? && State() == After(old(State()), o)
    {
      var may := MayChangeTo(today, request, next);
      if !may { return false; }
      var id := changes[request].booking;
      var b := bookings[id];
      ok := SyncSingleTableTransferAssignment(id, next);
      if !ok { return; }
      changes := changes[request := changes[request].(pending := false)];
      ShowChange(today, b.table.value, next, if b.status == Approved then Reserved else Awaiting, b.date);
    }

    /** Recomputes the table left and claims the next one, if it is for today. */
    method ShowChange(today: int, left: Id, next: Id, status: TableStatus, date: int)
      modifies `tables
      ensures var first := if date == today then Synchronized(old(tables), bookings, {left}, today, false)
              else old(tables);
              tables == MarkToday(first, {next}, status, date, today)
    {
      if date == today { SynchronizeTable(left, today, false); }
      SetTableStatusOnlyForToday(next, status, date, today);
    }

    // ----- Moves to another time

    method HasOwnTableConflict(table: Id, date: int, except: Id, start: int, until: int) returns (found: bool)
      ensures found <==> !OwnTableClear(bookings, table, date, except, start, until)
    {
      var todo := bookings.Keys;
      while todo != {}
        invariant todo <= bookings.Keys
        invariant forall id :: id in bookings && id !in todo && id != except && bookings[id].HoldsOwn(table, date) ==>
                    !bookings[id].Clashes(RequestsReader, start, until)
      {
        var id :| id in todo;
        todo := todo - {id};
        var b := bookings[id];
        if id != except && b.HoldsOwn(table, date) && b.Clashes(RequestsReader, start, until) {
          return true;
        }
      }
      return false;
    }

    method ApproveReschedule(today: int, request: Id) returns (ok: bool)
      modifies `bookings, `moves
      ensures var o := Bookings.ApproveReschedule(old(State()), today, request);
              ok == o.Done? && State() == After(old(State()), o)
    {
      if request !in moves || !moves[request].pending || moves[request].booking !in bookings { return false; }
      var move := moves[request];
      var b := bookings[move.booking];
      var time, minutes := NormalizeTime(move.time), Duration(RequestsReader, b.stored, b.remarks);
      if b.table.None? || !b.Active() || b.checkedIn || move.date < today || time.None?
        || minutes.None?
      {
        return false;
      }
      var table, start := b.table.value, ParseTime(time.value);
      if !CanBeBooked(State(), table) || start.None? { return false; }
      var until := start.value + minutes.value + CLEANUP;
      var blocked := HasBlock(move.date, table, tables[table].zone, start.value, until);
      if blocked { return false; }
      var conflict := HasOwnTableConflict(table, move.date, move.booking, start.value, until);
      if conflict { return false; }
      var other := HasOtherBooking(move.date, b.phone, b.device, Some(move.booking));
      if other { return false; }
      bookings := bookings[move.booking := b.(date := move.date, time := start)];
      moves := moves[request := move.(pending := false)];
      return true;
    }

    // ----- Planned unavailability

    method CreateBlock(today: int, target: Option<Target>, date: int, start: Option<string>, end: Option<string>,
                       reasoned: bool, id: Id)
      returns (ok: bool)
      modifies `blocks
      ensures var o := Bookings.CreateBlock(old(State()), today, target, date, start, end, reasoned, id);
              ok == o.Done? && State() == After(old(State()), o)
    {
      if target.None? || date < today || !reasoned || Range(start, end).None? || !TargetExists(State(), target.value)
        || id in blocks
      {
        return false;
      }
      var todo := bookings.Keys;
      while todo != {}
        invariant todo <= bookings.Keys
        invariant forall b :: b in bookings && b !in todo ==>
                    !Occupies(tables, bookings[b], target.value, date, Range(start, end).value)
      {
        var b :| b in todo;
        todo := todo - {b};
        if Occupies(tables, bookings[b], target.value, date, Range(start, end).value) { return false; }
      }
      var span :=
        if start.Some? && end.Some? then Some((ParseTime(start.value + ":00"), ParseTime(end.value + ":00"))) else None;
      blocks := blocks[id := Block(target.value, date, span)];
      return true;
    }

    method RemoveBlock(id: Id) returns (ok: bool)
      modifies `blocks
      ensures var o := Bookings.RemoveBlock(old(State()), id);
              ok == o.Done? && State() == After(old(State()), o)
    {
      if id !in blocks { return false; }
      blocks := blocks - {id};
      return true;
    }
  }

  lemma OnlyKey(rows: map<Id, bool>, t: Id)
    requires |rows| == 1 && t in rows
    ensures forall u :: u in rows ==> u == t
  {
    assert rows.Keys == {t} + (rows.Keys - {t});
    assert |rows.Keys - {t}| == 0;
  }
}
