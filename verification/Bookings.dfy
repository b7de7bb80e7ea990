/** The rows behind table bookings and what each operation makes of them. A transaction under its row
    locks is one function from rows to rows; Refused stands for a thrown error, which rolls back. */
module Bookings {
  import opened Basics
  import opened Text
  import opened BookingTime

  type Id = nat

  datatype BookingStatus = Pending | Approved | Rejected | Cancelled | Completed

  datatype TableStatus = Free | Awaiting | Reserved | Occupied | Cleaning | Closed

  datatype Table = Table(zone: Option<Id>, visible: bool, status: TableStatus, seats: int)

  datatype Zone = Zone(closed: bool, visible: bool)

  /** A booking holds its own table and, for banquets, every table assigned to it. Its time is kept as the
      minutes its readers parse from the stored text, None where they would throw. Phones are kept normalized,
      devices hashed; a booking taken by staff has no device and may have no phone. */
  datatype Booking = Booking(
    table: Option<Id>,
    assignments: map<Id, bool>,
    date: int,
    time: Option<nat>,
    stored: Option<int>,
    remarks: Remarks,
    status: BookingStatus,
    checkedIn: bool,
    guests: int,
    phone: Option<nat>,
    device: Option<nat>)
  {
    predicate Active() { status == Pending || status == Approved }

    function Tables(): set<Id> { (if table.Some? then {table.value} else {}) + assignments.Keys }

    /** Active on a date for the guest with this phone or this device. */
    predicate IsFor(on: int, byPhone: Option<nat>, byDevice: Option<nat>) {
      Active() && date == on && ((byPhone.Some? && phone == byPhone) || (byDevice.Some? && device == byDevice))
    }

    /** Active on a date at a table, as its own or as an assigned one. */
    predicate Holds(id: Id, on: int) { Active() && date == on && id in Tables() }

    /** Active on a date with the table as its own. */
    predicate HoldsOwn(id: Id, on: int) { Active() && date == on && table == Some(id) }

    /** First minute after the stay and the cleaning; None where reading the row would throw. */
    function Until(reader: Reader): Option<nat> {
      match (time, Duration(reader, stored, remarks))
      case (Some(start), Some(minutes)) => Some(start + minutes + CLEANUP)
      case _ => None
    }

    /** Stands in the way of a slot; a row that cannot be read throws, which stops the search just the same. */
    predicate Clashes(reader: Reader, start: int, until: int) {
      time.None? || Until(reader).None? || Overlap(start, until, time.value, Until(reader).value)
    }
  }

  datatype Target = TableTarget(id: Id) | ZoneTarget(id: Id)

  /** Planned unavailability: all day, or between two times. */
  datatype Block = Block(target: Target, date: int, span: Option<(Option<nat>, Option<nat>)>) {
    predicate AppliesTo(id: Id, zone: Option<Id>) {
      target == TableTarget(id) || (zone.Some? && target == ZoneTarget(zone.value))
    }

    predicate Covers(start: int, until: int) {
      span.Some? ==>
        var (from, to) := span.value;
        from.None? || to.None? || Overlap(from.value, to.value, start, until)
    }
  }

  datatype ChangeRequest = ChangeRequest(booking: Id, pending: bool)

  datatype MoveRequest = MoveRequest(booking: Id, date: int, time: string, pending: bool)

  datatype Db = Db(
    tables: map<Id, Table>,
    numbers: map<string, Id>,
    zones: map<Id, Zone>,
    bookings: map<Id, Booking>,
    blocks: map<Id, Block>,
    changes: map<Id, ChangeRequest>,
    moves: map<Id, MoveRequest>)

  datatype Outcome = Refused | Done(db: Db)

  function ToSet(ids: seq<Id>): set<Id> { set t | t in ids }

  // ----- Searches

  /** No active booking but the excepted one clashes with the slot at the table. */
  predicate Clear(bookings: map<Id, Booking>, table: Id, date: int, except: Option<Id>, reader: Reader, start: int,
                  until: int) {
    forall id :: id in bookings && Some(id) != except && bookings[id].Holds(table, date) ==>
      !bookings[id].Clashes(reader, start, until)
  }

  predicate Unblocked(blocks: map<Id, Block>, date: int, table: Id, zone: Option<Id>, start: int, until: int) {
    forall id :: id in blocks && blocks[id].date == date && blocks[id].AppliesTo(table, zone) ==>
      !blocks[id].Covers(start, until)
  }

  predicate ZoneOpen(zones: map<Id, Zone>, zone: Option<Id>) {
    zone.Some? && zone.value in zones ==> !zones[zone.value].closed && zones[zone.value].visible
  }

  /** What every slot needs of its table, whatever the time. */
  predicate CanBeBooked(db: Db, id: Id) {
    && id in db.tables
    && db.tables[id].visible && db.tables[id].status != Closed
    && ZoneOpen(db.zones, db.tables[id].zone)
  }

  // ----- Table statuses

  /** Bookings neither open a closed table nor overrule guests at it or its cleaning. */
  predicate Quiet(status: TableStatus) { status !in {Occupied, Cleaning, Closed} }

  function Mark(tables: map<Id, Table>, ids: set<Id>, status: TableStatus): map<Id, Table> {
    map id | id in tables :: if id in ids && Quiet(tables[id].status) then tables[id].(status := status) else tables[id]
  }

  function MarkToday(tables: map<Id, Table>, ids: set<Id>, status: TableStatus, date: int, today: int): map<Id, Table> {
    if date == today then Mark(tables, ids, status) else tables
  }

  /** The status the day's remaining active bookings give a table. */
  function Remaining(bookings: map<Id, Booking>, table: Id, date: int): TableStatus {
    if exists id :: id in bookings && bookings[id].Holds(table, date) && bookings[id].status == Approved then Reserved
    else if exists id :: id in bookings && bookings[id].Holds(table, date) then Awaiting
    else Free
  }

  /** Recomputes the tables from the bookings; with release, even where guests were or cleaning is under way. */
  function Synchronized(tables: map<Id, Table>, bookings: map<Id, Booking>, ids: set<Id>, date: int,
                        release: bool): map<Id, Table> {
    map id | id in tables ::
      if id in ids && tables[id].status != Closed && (release || Quiet(tables[id].status))
      then tables[id].(status := Remaining(bookings, id, date))
      else tables[id]
  }

  // ----- Creation

  datatype Draft = Draft(date: int, time: string, length: Length, guests: int, phone: Option<nat>,
                         device: Option<nat>) {
    function Until(): int
      requires ParseTime(time).Some?
    {
      ParseTime(time).value + NormalizeDuration(length) + CLEANUP
    }
  }

  /** An empty number counts as none. */
  predicate Named(number: Option<string>) { number.Some? && number.value != "" }

  /** None, or nothing but space. */
  predicate Blank(number: Option<string>) { number.None? || Trim(number.value) == "" }

  /** The table a creation looks up, by id and else by the number as it is written. An id that no table has is
      also what a request carries for a table known from the floor plan only. */
  function Resolve(db: Db, table: Option<Id>, number: Option<string>): Option<Id> {
    if table.Some? && table.value in db.tables then table
    else if Named(number) && number.value in db.numbers then Some(db.numbers[number.value])
    else None
  }

  /** The table the check before it looks up, by id and else by the trimmed number. */
  function Checked(db: Db, table: Option<Id>, number: Option<string>): Option<Id> {
    if table.Some? && table.value in db.tables then table
    else if !Blank(number) && Trim(number.value) in db.numbers then Some(db.numbers[Trim(number.value)])
    else None
  }

  /** The check every caller makes before creating; with no table found there is nothing to check. */
  predicate Bookable(db: Db, today: int, table: Option<Id>, number: Option<string>, draft: Draft) {
    var found := Checked(db, table, number);
    found.Some? && found.value in db.tables ==>
      && ParseTime(draft.time).Some? && draft.date >= today
      && Unblocked(db.blocks, draft.date, found.value, db.tables[found.value].zone, ParseTime(draft.time).value,
                   draft.Until())
  }

  /** The row a draft is stored as: the time in canonical form, the length normalized. */
  function NewBooking(draft: Draft, table: Id, assignments: map<Id, bool>, status: BookingStatus): Booking
    requires ParseTime(draft.time).Some?
  {
    var start, minutes := ParseTime(draft.time).value, NormalizeDuration(draft.length);
    Booking(Some(table), assignments, draft.date, ParseTime(FormatTime(start)), Some(minutes),
            SystemRemarks(start, minutes), status, false, draft.guests, draft.phone, draft.device)
  }

  /** Nobody but the excepted booking is for this guest on the date; the database's unique indexes ask the same. */
  predicate GuestFree(bookings: map<Id, Booking>, date: int, phone: Option<nat>, device: Option<nat>,
                      except: Option<Id>) {
    forall id :: id in bookings && Some(id) != except ==> !bookings[id].IsFor(date, phone, device)
  }

  /** Places a draft for a guest with no other booking that day, at tables that exist, all bookable and clear. */
  function Place(db: Db, today: int, table: Id, ids: set<Id>, assignments: map<Id, bool>, draft: Draft,
                 status: BookingStatus, id: Id): Outcome {
    if id in db.bookings || ParseTime(draft.time).None? || exists t :: t in ids && !CanBeBooked(db, t) then Refused
    else if !GuestFree(db.bookings, draft.date, draft.phone, draft.device, None) then Refused
    else if exists t ::
      t in ids && !Clear(db.bookings, t, draft.date, None, BookingsReader, ParseTime(draft.time).value, draft.Until())
    then Refused
    else
      Done(db.(bookings := db.bookings[id := NewBooking(draft, table, assignments, status)],
               tables := MarkToday(db.tables, ids, if status == Approved then Reserved else Awaiting,
                                   draft.date, today)))
  }

  function WithTable(db: Db, id: Id, number: string, seats: int): Db {
    db.(tables := db.tables[id := Table(None, true, Free, seats)], numbers := db.numbers[number := id])
  }

  /** A guest's request. An unknown table number makes a table; admitted stands for the restaurant taking
      bookings and the guest not being banned. */
  function Create(db: Db, today: int, table: Option<Id>, number: Option<string>, draft: Draft, seats: int,
                  admitted: bool, newTable: Id, id: Id): Outcome
  {
    if !admitted then Refused
    else
      match Resolve(db, table, number)
      case Some(found) => Place(db, today, found, {found}, map[], draft, Pending, id)
      case None =>
        if !Named(number) || newTable in db.tables then Refused
        else Place(WithTable(db, newTable, number.value, seats), today, newTable, {newTable}, map[], draft, Pending, id)
  }

  const MAX_NUMBER_LENGTH: nat := 32

  /** The number a guest's request goes on with: a number that says something must be a table's, and is trimmed;
      a blank one is passed on as it is. None refuses. */
  function Submitted(db: Db, number: Option<string>): Option<Option<string>> {
    if Blank(number) then Some(number)
    else if |Trim(number.value)| > MAX_NUMBER_LENGTH || Trim(number.value) !in db.numbers then None
    else Some(Some(Trim(number.value)))
  }

  /** A guest's request from its arrival on: the number replaced, a table asked for, the check made, and only then
      the creation, all under one lock. */
  function GuestRequest(db: Db, today: int, table: Option<Id>, number: Option<string>, draft: Draft, seats: int,
                        admitted: bool, newTable: Id, id: Id): Outcome
  {
    match Submitted(db, number)
    case None => Refused
    case Some(named) =>
      if table.None? && Blank(named) then Refused
      else if !Bookable(db, today, table, named, draft) then Refused
      else Create(db, today, table, named, draft, seats, admitted, newTable, id)
  }

  /** A booking taken by staff, approved at once. */
  function CreateManual(db: Db, today: int, table: Id, draft: Draft, admitted: bool, id: Id): Outcome {
    if !admitted || table !in db.tables then Refused
    else Place(db, today, table, {table}, map[], draft.(device := None), Approved, id)
  }

  /** Every table of a banquet, with the primary one marked. */
  function Assigned(ids: set<Id>, primary: Id): (assignments: map<Id, bool>)
    ensures assignments.Keys == ids
  {
    map t | t in ids :: t == primary
  }

  /** A booking over several tables. */
  function CreateManualBanquet(db: Db, today: int, tables: seq<Id>, primary: Id, draft: Draft, admitted: bool,
                               id: Id): Outcome {
    var ids := ToSet(tables);
    if |ids| < 2 || |ids| != |tables| || primary !in ids || !admitted || !(ids <= db.tables.Keys) then Refused
    else Place(db, today, primary, ids, Assigned(ids, primary), draft.(device := None), Approved, id)
  }

  // ----- Approval and arrival

  datatype Transition = Approve | CheckIn

  /** Nothing at one of the booking's tables forbids the transition. */
  predicate MayProceed(db: Db, today: int, id: Id, t: Id, transition: Transition)
    requires id in db.bookings
  {
    var b := db.bookings[id];
    && CanBeBooked(db, t)
    && !(transition == CheckIn && b.date == today && db.tables[t].status in {Occupied, Cleaning})
    && b.time.Some? && b.Until(BookingsReader).Some?
    && Clear(db.bookings, t, b.date, Some(id), BookingsReader, b.time.value, b.Until(BookingsReader).value)
  }

  /** Approves a booking or marks its guests as arrived; a repeated action changes nothing. */
  function Transit(db: Db, today: int, id: Id, transition: Transition): Outcome {
    if id !in db.bookings || db.bookings[id].table.None? || !db.bookings[id].Active() then Refused
    else
      var b := db.bookings[id];
      if b.status == Approved && (transition == Approve || b.checkedIn) then Done(db)
      else if exists t :: t in b.Tables() && !MayProceed(db, today, id, t, transition) then Refused
      else
        var after := b.(status := Approved, checkedIn := b.checkedIn || transition == CheckIn);
        Done(db.(bookings := db.bookings[id := after],
                 tables := MarkToday(db.tables, b.Tables(), if transition == Approve then Reserved else Occupied,
                                     b.date, today)))
  }

  /** What the first, unlocked read saw still holds once the locks are taken. */
  predicate StillAsSeen(seen: Option<Booking>, b: Booking) {
    && seen.Some? && seen.value.table.Some? && seen.value.table == b.table && seen.value.date == b.date
    && seen.value.Tables() == b.Tables()
  }

  /** The tables to lock come from an earlier read; a booking that changed since then is refused. */
  function CoordinatedTransit(db: Db, today: int, id: Id, seen: Option<Booking>, transition: Transition): Outcome {
    if id !in db.bookings || !StillAsSeen(seen, db.bookings[id]) then Refused else Transit(db, today, id, transition)
  }

  // ----- Closings

  datatype Closing = Reject | Cancel | NoShow | Complete

  /** What a closing makes of the row: None refuses, and a completed booking completed again stays as it is. */
  function ClosedRow(b: Booking, closing: Closing): Option<Booking> {
    match closing
    case Reject => Some(b.(status := Rejected))
    case Cancel => Some(b.(status := Cancelled))
    case NoShow => if b.checkedIn then None else Some(b.(status := Cancelled))
    case Complete =>
      if b.status == Completed then Some(b)
      else if b.Active() then Some(b.(status := Completed)) else None
  }

  function Close(db: Db, today: int, id: Id, closing: Closing): Outcome {
    if id !in db.bookings || ClosedRow(db.bookings[id], closing).None? then Refused
    else if closing == Complete && db.bookings[id].status == Completed then Done(db)
    else
      var b := ClosedRow(db.bookings[id], closing).value;
      var bookings := db.bookings[id := b];
      Done(db.(bookings := bookings,
               tables := if b.date == today
                         then Synchronized(db.tables, bookings, b.Tables(), today, closing == Complete)
                         else db.tables))
  }

  // ----- Moves to another table

  /** A booking with several assigned tables cannot be moved, nor one whose only assignment is not its primary. */
  function Reassigned(b: Booking, next: Id): Option<Booking> {
    if |b.assignments| > 1 || (exists t :: t in b.assignments && !b.assignments[t]) then None
    else Some(b.(table := Some(next), assignments := map[next := true]))
  }

  /** The table is free, large enough and, going by the stored length, clear; the booking itself is not excepted. */
  predicate CanSeat(db: Db, b: Booking, next: Id) {
    && CanBeBooked(db, next) && db.tables[next].status == Free && Some(next) != b.table
    && db.tables[next].seats >= b.guests
    && b.time.Some?
    && var start, length := b.time.value, if b.stored.Some? then Whole(b.stored.value) else Missing;
       Clear(db.bookings, next, b.date, None, BookingsReader, start, start + NormalizeDuration(length) + CLEANUP)
  }

  predicate MayTransfer(db: Db, today: int, id: Id, next: Id) {
    && id in db.bookings && db.bookings[id].status == Approved && db.bookings[id].date == today
    && db.bookings[id].table.Some? && db.bookings[id].table.value in db.tables
    && CanSeat(db, db.bookings[id], next)
  }

  /** The row moved, and both tables recomputed, the one left first. */
  function Reseated(db: Db, today: int, id: Id, moved: Booking, left: Id, next: Id, release: bool): Db {
    var bookings := db.bookings[id := moved];
    var tables := Synchronized(db.tables, bookings, {left}, today, release);
    db.(bookings := bookings, tables := Synchronized(tables, bookings, {next}, today, false))
  }

  /** Moves today's approved booking to a free table and forgets the arrival; planned blocks are not consulted. */
  function WaiterTransfer(db: Db, today: int, id: Id, next: Id): Outcome {
    if !MayTransfer(db, today, id, next) then Refused
    else
      var b := db.bookings[id];
      match Reassigned(b, next)
      case None => Refused
      case Some(moved) =>
        var release := b.checkedIn && db.tables[b.table.value].status in {Occupied, Cleaning};
        Done(Reseated(db, today, id, moved.(checkedIn := false), b.table.value, next, release))
  }

  /** The table a booking is moved to can take it at its time. */
  predicate CanReceive(db: Db, b: Booking, id: Id, next: Id, reader: Reader) {
    && CanBeBooked(db, next) && Some(next) != b.table && db.tables[next].seats >= b.guests
    && b.time.Some? && b.Until(reader).Some?
    && Clear(db.bookings, next, b.date, Some(id), reader, b.time.value, b.Until(reader).value)
    && Unblocked(db.blocks, b.date, next, db.tables[next].zone, b.time.value, b.Until(reader).value)
  }

  predicate MayRelocate(db: Db, today: int, id: Id, next: Id) {
    && id in db.bookings && db.bookings[id].Active() && db.bookings[id].table.Some? && db.bookings[id].date >= today
    && CanReceive(db, db.bookings[id], id, next, BlocksReader)
  }

  /** Moves an active booking, today's or later, off a table about to become unavailable. */
  function TransferBooking(db: Db, today: int, id: Id, next: Id): Outcome {
    if !MayRelocate(db, today, id, next) then Refused
    else
      match Reassigned(db.bookings[id], next)
      case None => Refused
      case Some(moved) =>
        var bookings, left := db.bookings[id := moved], db.bookings[id].table.value;
        Done(db.(bookings := bookings,
                 tables := if moved.date == today
                           then Synchronized(db.tables, bookings, {left} + {next}, today, false)
                           else db.tables))
  }

  /** A guest asks for another table; a second request while one is pending changes nothing but its wording. */
  function RequestTableChange(db: Db, request: Id, booking: Id): Outcome {
    if booking !in db.bookings || !db.bookings[booking].Active() || db.bookings[booking].checkedIn then Refused
    else if exists r :: r in db.changes && db.changes[r] == ChangeRequest(booking, true) then Done(db)
    else if request in db.changes then Refused
    else Done(db.(changes := db.changes[request := ChangeRequest(booking, true)]))
  }

  predicate MayChange(db: Db, today: int, request: Id, next: Id) {
    && request in db.changes && db.changes[request].pending && db.changes[request].booking in db.bookings
    && var id := db.changes[request].booking; var b := db.bookings[id];
       && b.Active() && !b.checkedIn && b.table.Some? && b.table.value in db.tables
       && CanReceive(db, b, id, next, RequestsReader)
       && !(b.date == today && db.tables[next].status in {Occupied, Cleaning})
  }

  function ApproveTableChange(db: Db, today: int, request: Id, next: Id): Outcome {
    if !MayChange(db, today, request, next) then Refused
    else
      var id := db.changes[request].booking;
      var b := db.bookings[id];
      match Reassigned(b, next)
      case None => Refused
      case Some(moved) =>
        var bookings := db.bookings[id := moved];
        var left :=
          if b.date == today then Synchronized(db.tables, bookings, {b.table.value}, today, false) else db.tables;
        Done(db.(bookings := bookings, changes := db.changes[request := ChangeRequest(id, false)],
                 tables := MarkToday(left, {next}, if b.status == Approved then Reserved else Awaiting, b.date, today)))
  }

  // ----- Moves to another time

  function RequestReschedule(db: Db, request: Id, booking: Id, date: int, time: string): Outcome {
    if booking !in db.bookings || request in db.moves then Refused
    else Done(db.(moves := db.moves[request := MoveRequest(booking, date, time, true)]))
  }

  /** The start a request asks for; None where it is no time of the clock. */
  function Requested(move: MoveRequest): Option<nat> {
    if NormalizeTime(move.time).Some? then ParseTime(NormalizeTime(move.time).value) else None
  }

  /** The booking as the request would have it. */
  function AtNewTime(b: Booking, move: MoveRequest): Booking { b.(date := move.date, time := Requested(move)) }

  /** Whether anything booked under the table itself is in the way; tables held by assignment are not looked at. */
  predicate OwnTableClear(bookings: map<Id, Booking>, table: Id, date: int, except: Id, start: int, until: int) {
    forall id :: id in bookings && id != except && bookings[id].HoldsOwn(table, date) ==>
      !bookings[id].Clashes(RequestsReader, start, until)
  }

  /** Grants the requested date and time. Only the booking's own table is searched and checked for blocks; the
      unique indexes refuse a date on which the guest has another booking. */
  function ApproveReschedule(db: Db, today: int, request: Id): Outcome {
    if request !in db.moves || !db.moves[request].pending || db.moves[request].booking !in db.bookings then Refused
    else
      var move := db.moves[request];
      var b := db.bookings[move.booking];
      var start, minutes := Requested(move), Duration(RequestsReader, b.stored, b.remarks);
      if b.table.None? || !b.Active() || b.checkedIn || move.date < today || start.None? || minutes.None? then Refused
      else
        var table := b.table.value;
        if !CanBeBooked(db, table) then Refused
        else
          var until := start.value + minutes.value + CLEANUP;
          if || !Unblocked(db.blocks, move.date, table, db.tables[table].zone, start.value, until)
             || !OwnTableClear(db.bookings, table, move.date, move.booking, start.value, until)
             || !GuestFree(db.bookings, move.date, b.phone, b.device, Some(move.booking))
          then Refused
          else
            Done(db.(bookings := db.bookings[move.booking := AtNewTime(b, move)],
                     moves := db.moves[request := move.(pending := false)]))
  }

  // ----- Planned unavailability

  /** A booking holds the target, directly or through its zone, at some minute of the span; an unreadable row throws. */
  predicate Occupies(tables: map<Id, Table>, b: Booking, target: Target, date: int, span: Option<(nat, nat)>) {
    && b.Active() && b.date == date
    && (exists t :: t in b.Tables() &&
          (target == TableTarget(t)
           || (t in tables && tables[t].zone.Some? && target == ZoneTarget(tables[t].zone.value))))
    && (span.Some? ==> b.Clashes(BlocksReader, span.value.0, span.value.1))
  }

  predicate TargetExists(db: Db, target: Target) {
    match target
    case TableTarget(t) => t in db.tables
    case ZoneTarget(z) => z in db.zones
  }

  /** Both bounds or neither, in order; stored with seconds. */
  function Range(start: Option<string>, end: Option<string>): Option<Option<(nat, nat)>> {
    match (start, end)
    case (None, None) => Some(None)
    case (Some(s), Some(e)) =>
      if ParseTime(s).Some? && ParseTime(e).Some? && ParseTime(s).value < ParseTime(e).value
      then Some(Some((ParseTime(s).value, ParseTime(e).value))) else None
    case _ => None
  }

  /** Plans a table or a zone as unavailable, unless an active booking is there. The comparison with blocks
      already planned never finds one: it expects null where a missing relation gives undefined. */
  function CreateBlock(db: Db, today: int, target: Option<Target>, date: int, start: Option<string>,
                       end: Option<string>, reasoned: bool, id: Id): Outcome
  {
    if target.None? || date < today || !reasoned || Range(start, end).None? || !TargetExists(db, target.value)
       || id in db.blocks
    then Refused
    else if exists b ::
      b in db.bookings && Occupies(db.tables, db.bookings[b], target.value, date, Range(start, end).value)
    then Refused
    else
      var span :=
        if start.Some? && end.Some? then Some((ParseTime(start.value + ":00"), ParseTime(end.value + ":00"))) else None;
      Done(db.(blocks := db.blocks[id := Block(target.value, date, span)]))
  }

  function RemoveBlock(db: Db, id: Id): Outcome {
    if id !in db.blocks then Refused else Done(db.(blocks := db.blocks - {id}))
  }
}
