/** Runs from empty books in which the two operations that look at too little break a promise the others keep. */
module BookingWitnesses {
  import opened Basics
  import opened Text
  import opened BookingTime
  import opened Bookings
  import opened BookingSlots
  import opened BookingBlocks
  import opened BookingRuns

  const EVENING: string := "18:00"
  const NOON: string := "12:00"

  /** Two free tables outside any zone, and no bookings. */
  function EmptyBooks(): Db {
    var table := Table(None, true, TableStatus.Free, 8);
    Db(map[1 := table, 2 := table], map[], map[], map[], map[], map[], map[])
  }

  /** Two guests, for the usual length. */
  function DraftFor(time: string): Draft { Draft(1, time, Missing, 2, None, None) }

  lemma Noon()
    ensures ParseTime(NOON) == Some(720)
  {
    ClockReadsBack(12, 0, "");
    assert TwoDigits(12) == "12" && TwoDigits(0) == "00";
    assert NOON == "12" + ":" + "00" + "";
  }

  lemma Evening()
    ensures ParseTime(EVENING) == Some(1080)
  {
    ClockReadsBack(18, 0, "");
    assert TwoDigits(18) == "18" && TwoDigits(0) == "00";
    assert EVENING == "18" + ":" + "00" + "";
  }

  lemma EveningIsNormal()
    ensures NormalizeTime(EVENING) == Some(EVENING + ":00") && ParseTime(EVENING + ":00") == Some(1080)
  {
    assert Trim(EVENING) == EVENING;
    Evening();
    SecondsDoNotMoveTime(EVENING);
  }

  lemma ExecOne(db: Db, run: seq<Dated>, d: Dated)
    ensures Exec(db, run + [d]) == Step(Exec(db, run), d.today, d.event)
  {
    assert (run + [d])[..|run|] == run;
  }

  lemma LastStepLeavesApart(db: Db, run: seq<Dated>, d: Dated)
    requires !Apart(Step(Exec(db, run), d.today, d.event))
    ensures !Apart(Exec(db, run + [d]))
  {
    ExecOne(db, run, d);
  }

  lemma LastStepLeavesSound(db: Db, run: seq<Dated>, d: Dated)
    requires !Sound(Step(Exec(db, run), d.today, d.event).bookings)
    ensures !Sound(Exec(db, run + [d]).bookings)
  {
    ExecOne(db, run, d);
  }

  lemma ExecFirst(db: Db, d: Dated)
    ensures Exec(db, [d]) == Step(db, d.today, d.event)
  {
    ExecOne(db, [], d);
    assert [] + [d] == [d];
  }

  // ----- What single steps of these runs do, in any state

  /** Two tables outside any zone that guests may see and book. */
  ghost predicate OpenTables(tables: map<Id, Table>) {
    && tables.Keys == {1, 2}
    && forall t :: t in tables ==>
         tables[t].zone == None && tables[t].visible && tables[t].status != Closed && tables[t].seats == 8
  }

  lemma MarkedTablesStayOpen(tables: map<Id, Table>, ids: set<Id>, status: TableStatus, date: int, today: int)
    requires OpenTables(tables) && status != Closed
    ensures OpenTables(MarkToday(tables, ids, status, date, today))
    ensures forall t :: t in tables && t !in ids ==> MarkToday(tables, ids, status, date, today)[t] == tables[t]
  {
  }

  lemma OpenTablesCanBeBooked(db: Db, t: Id)
    requires OpenTables(db.tables) && t in {1, 2}
    ensures CanBeBooked(db, t)
  {
  }

  /** Staff take a booking at a table nobody holds. */
  lemma StaffBookFreeTable(db: Db, table: Id, time: string, id: Id)
    requires OpenTables(db.tables) && table in {1, 2} && ParseTime(time).Some? && id !in db.bookings
    requires db.blocks == map[]
    requires forall i :: i in db.bookings ==> !db.bookings[i].IsFor(1, None, None)
    requires Clear(db.bookings, table, 1, None, BookingsReader, ParseTime(time).value, DraftFor(time).Until())
    ensures var o := Handle(db, 1, StaffBooks(Some(table), DraftFor(time), true, id));
            && o.Done? && OpenTables(o.db.tables)
            && o.db == db.(tables := o.db.tables,
                           bookings := db.bookings[id := NewBooking(DraftFor(time), table, map[], Approved)])
            && forall t :: t in db.tables && t != table ==> o.db.tables[t] == db.tables[t]
  {
    var draft := DraftFor(time);
    assert draft.(device := None) == draft;
    OpenTablesCanBeBooked(db, table);
    MarkedTablesStayOpen(db.tables, {table}, Reserved, 1, 1);
  }

  /** A block for a whole day, at a table nobody holds that day. */
  lemma PlanFreeDay(db: Db, table: Id, date: int, id: Id)
    requires table in db.tables && date >= 1 && id !in db.blocks
    requires forall i :: i in db.bookings ==> !db.bookings[i].Holds(table, date)
    ensures Handle(db, 1, BlockPlanned(Some(TableTarget(table)), date, None, None, true, id))
            == Done(db.(blocks := db.blocks[id := Block(TableTarget(table), date, None)]))
  {
  }

  /** Two tables that can be booked, and nothing else yet. */
  ghost predicate NothingYet(db: Db) {
    && OpenTables(db.tables) && db.tables[2].status == TableStatus.Free
    && db.bookings == map[] && db.blocks == map[] && db.moves == map[]
  }

  lemma EmptyBooksAreInOrder()
    ensures NothingYet(EmptyBooks())
  {
  }

  /** A booking taken by staff for two hours on a date, at these tables from this minute on. */
  ghost predicate Seated(b: Booking, table: Id, held: set<Id>, date: int, start: nat) {
    && b.table == Some(table) && b.assignments.Keys == held && b.date == date && b.time == Some(start)
    && b.stored == Some(DEFAULT_DURATION) && b.status == Approved && !b.checkedIn && b.guests == 2
    && b.phone == None && b.device == None
  }

  lemma DraftIsSeated(time: string, table: Id, assignments: map<Id, bool>)
    requires ParseTime(time).Some?
    ensures Seated(NewBooking(DraftFor(time), table, assignments, Approved), table, assignments.Keys, 1,
                   ParseTime(time).value)
  {
    AcceptedTimeIsStored(time, ParseTime(time).value);
  }

  // ----- A waiter moves guests into planned unavailability

  /** Staff book table 1 for today. */
  function BookFirst(time: string): seq<Dated> { [Dated(1, StaffBooks(Some(1), DraftFor(time), true, 1))] }

  /** Then they plan table 2 as unavailable today. */
  function PlanSecond(time: string): seq<Dated> {
    BookFirst(time) + [Dated(1, BlockPlanned(Some(TableTarget(2)), 1, None, None, true, 3))]
  }

  /** Today's only booking, approved at table 1. */
  ghost predicate Waiting(db: Db, start: nat) {
    && db.bookings.Keys == {1} && Seated(db.bookings[1], 1, {}, 1, start) && db.bookings[1].assignments == map[]
    && OpenTables(db.tables) && db.tables[2].status == TableStatus.Free
  }

  lemma StaffTakeBooking(db: Db, time: string)
    requires NothingYet(db) && ParseTime(time).Some?
    ensures var after := Exec(db, BookFirst(time)); Waiting(after, ParseTime(time).value) && after.blocks == map[]
  {
    ExecFirst(db, BookFirst(time)[0]);
    StaffBookFreeTable(db, 1, time, 1);
    DraftIsSeated(time, 1, map[]);
  }

  lemma StaffPlanBlock(db: Db, run: seq<Dated>, start: nat)
    requires Waiting(Exec(db, run), start) && Exec(db, run).blocks == map[]
    ensures var after := Exec(db, run + [Dated(1, BlockPlanned(Some(TableTarget(2)), 1, None, None, true, 3))]);
            Waiting(after, start) && after.blocks == map[3 := Block(TableTarget(2), 1, None)]
  {
    PlanFreeDay(Exec(db, run), 2, 1, 3);
    ExecOne(db, run, Dated(1, BlockPlanned(Some(TableTarget(2)), 1, None, None, true, 3)));
  }

  lemma BlockedAllDay(db: Db, k: Id, t: Id, date: int, zone: Option<Id>, start: int, until: int)
    requires k in db.blocks && db.blocks[k] == Block(TableTarget(t), date, None)
    ensures !Unblocked(db.blocks, date, t, zone, start, until)
  {
    assert db.blocks[k].AppliesTo(t, zone) && db.blocks[k].Covers(start, until);
  }

  lemma WaiterMayMove(db: Db, start: nat)
    requires Waiting(db, start)
    ensures WaiterTransfer(db, 1, 1, 2).Done?
  {
    assert CanBeBooked(db, 2);
  }

  lemma WaiterMovesIntoBlock(db: Db, start: nat)
    requires Apart(db) && Waiting(db, start) && db.blocks == map[3 := Block(TableTarget(2), 1, None)]
    ensures WaiterTransfer(db, 1, 1, 2).Done? && !Apart(WaiterTransfer(db, 1, 1, 2).db)
  {
    var b := db.bookings[1];
    WaiterMayMove(db, start);
    BlockedAllDay(db, 3, 2, 1, db.tables[2].zone, b.time.value, End(b));
    WaiterTransferExactly(db, 1, 1, 2);
  }

  lemma WaiterStep(db: Db, today: int, id: Id, next: Id)
    requires WaiterTransfer(db, today, id, next).Done?
    ensures Step(db, today, WaiterMoves(id, next)) == WaiterTransfer(db, today, id, next).db
  {
  }

  lemma WaiterEndsRun(db: Db, run: seq<Dated>, start: nat)
    requires Apart(Exec(db, run)) && Waiting(Exec(db, run), start)
    requires Exec(db, run).blocks == map[3 := Block(TableTarget(2), 1, None)]
    ensures !Apart(Exec(db, run + [Dated(1, WaiterMoves(1, 2))]))
  {
    WaiterMovesIntoBlock(Exec(db, run), start);
    WaiterStep(Exec(db, run), 1, 1, 2);
    LastStepLeavesApart(db, run, Dated(1, WaiterMoves(1, 2)));
  }

  /** Whatever the time, the waiter may then move those guests to table 2. */
  lemma WaiterSeatsGuestsInABlock(db: Db, time: string)
    requires NothingYet(db) && ParseTime(time).Some?
    ensures Apart(Exec(db, PlanSecond(time)))
    ensures !Apart(Exec(db, PlanSecond(time) + [Dated(1, WaiterMoves(1, 2))]))
  {
    StaffTakeBooking(db, time);
    StaffPlanBlock(db, BookFirst(time), ParseTime(time).value);
    RunsKeepBookingsOutOfBlocks(db, PlanSecond(time));
    WaiterEndsRun(db, PlanSecond(time), ParseTime(time).value);
  }

  /** For instance at six in the evening, from empty books. */
  lemma WaiterCanEnterABlock()
    ensures Apart(Exec(EmptyBooks(), PlanSecond(EVENING)))
    ensures !Apart(Exec(EmptyBooks(), PlanSecond(EVENING) + [Dated(1, WaiterMoves(1, 2))]))
  {
    Evening();
    EmptyBooksAreInOrder();
    WaiterSeatsGuestsInABlock(EmptyBooks(), EVENING);
  }

  // ----- A banquet for the runs in which a new time looks at the booking's own table only

  /** Both tables, each named once. */
  ghost predicate Both(tables: seq<Id>) { ToSet(tables) == {1, 2} && |tables| == 2 }

  lemma EachOnce()
    ensures Both([1, 2])
  {
    assert forall t :: t in {1, 2} ==> t in [1, 2];
  }

  /** The party has both tables. */
  ghost predicate OneParty(db: Db, start: nat) {
    && OpenTables(db.tables) && db.bookings.Keys == {1} && db.blocks == map[]
    && Seated(db.bookings[1], 1, {1, 2}, 1, start)
  }

  lemma BothTablesAreBookable(db: Db, tables: seq<Id>, draft: Draft)
    requires ParseTime(draft.time).Some? && draft.date == 1 && db.blocks == map[]
    ensures forall t :: t in tables ==> Bookable(db, 1, Some(t), None, draft)
  {
  }

  lemma BothTablesAreAsked(db: Db, tables: seq<Id>, draft: Draft)
    requires OpenTables(db.tables) && Both(tables)
    ensures var ids := ToSet(tables);
            CreateManualBanquet(db, 1, tables, 1, draft, true, 1)
            == Place(db, 1, 1, ids, Assigned(ids, 1), draft.(device := None), Approved, 1)
  {
    TwoOfTwo(ToSet(tables));
  }

  lemma TwoOfTwo(ids: set<Id>)
    requires ids == {1, 2}
    ensures |ids| == 2
  {
  }

  lemma PlaceBoth(db: Db, time: string)
    requires OpenTables(db.tables) && ParseTime(time).Some? && db.bookings == map[] && db.blocks == map[]
    ensures var o := Place(db, 1, 1, {1, 2}, Assigned({1, 2}, 1), DraftFor(time), Approved, 1);
            && o.Done? && OpenTables(o.db.tables) && o.db.bookings.Keys == {1} && o.db.blocks == map[]
            && o.db.moves == db.moves
            && Seated(o.db.bookings[1], 1, {1, 2}, 1, ParseTime(time).value)
  {
    OpenTablesCanBeBooked(db, 1);
    OpenTablesCanBeBooked(db, 2);
    MarkedTablesStayOpen(db.tables, {1, 2}, Reserved, 1, 1);
    DraftIsSeated(time, 1, Assigned({1, 2}, 1));
  }

  /** A new time at an open table nobody else has as their own is granted. */
  lemma NewTimeIsGranted(db: Db, request: Id, id: Id, table: Id, held: set<Id>, date: int, start: nat, time: string)
    requires OpenTables(db.tables) && table in {1, 2} && id in db.bookings
    requires Seated(db.bookings[id], table, held, 1, start)
    requires request in db.moves && db.moves[request] == MoveRequest(id, date, time, true) && date >= 1
    requires NormalizeTime(time).Some?
    requires forall i :: i in db.bookings && i != id ==> db.bookings[i].table != Some(table)
    requires forall k :: k in db.blocks ==> !db.blocks[k].AppliesTo(table, None)
    ensures var o := ApproveReschedule(db, 1, request); var wanted := Requested(db.moves[request]);
            && wanted.Some? && wanted == ParseTime(NormalizeTime(time).value)
            && o.Done? && o.db.blocks == db.blocks && o.db.tables == db.tables
            && o.db.bookings == db.bookings[id := db.bookings[id].(date := date, time := wanted)]
  {
    NormalizedTimeIsCanonical(time);
    OpenTablesCanBeBooked(db, table);
    var b := db.bookings[id];
    assert Duration(RequestsReader, b.stored, b.remarks).Some?;
    assert forall from, to :: Unblocked(db.blocks, date, table, db.tables[table].zone, from, to);
    assert forall from, to :: OwnTableClear(db.bookings, table, date, id, from, to);
    assert GuestFree(db.bookings, date, b.phone, b.device, Some(id));
  }

  lemma GrantStep(db: Db, today: int, request: Id)
    requires ApproveReschedule(db, today, request).Done?
    ensures Step(db, today, RescheduleApproved(request)) == ApproveReschedule(db, today, request).db
  {
  }

  /** The requested evening, however the guests write it. */
  ghost predicate Means(time: string, start: nat) {
    ParseTime(time) == Some(start) && NormalizeTime(time).Some? && ParseTime(NormalizeTime(time).value) == Some(start)
  }

  /** Staff book both tables for one party. */
  function BookBoth(tables: seq<Id>, time: string): seq<Dated> {
    [Dated(1, BanquetBooked(tables, 1, DraftFor(time), true, 1))]
  }

  lemma BanquetIsPlaced(db: Db, tables: seq<Id>, draft: Draft)
    requires OpenTables(db.tables) && ParseTime(draft.time).Some? && draft.date == 1 && db.blocks == map[]
    requires Both(tables)
    ensures Handle(db, 1, BanquetBooked(tables, 1, draft, true, 1))
            == Place(db, 1, 1, {1, 2}, Assigned({1, 2}, 1), draft.(device := None), Approved, 1)
  {
    BothTablesAreBookable(db, tables, draft);
    BothTablesAreAsked(db, tables, draft);
  }

  lemma StaffBookBoth(db: Db, tables: seq<Id>, time: string)
    requires NothingYet(db) && ParseTime(time).Some? && Both(tables)
    ensures var after := Exec(db, BookBoth(tables, time));
            OneParty(after, ParseTime(time).value) && after.moves == map[]
  {
    ExecFirst(db, BookBoth(tables, time)[0]);
    BanquetIsPlaced(db, tables, DraftFor(time));
    PlaceBoth(db, time);
  }

  /** A new time is asked for; nothing is checked yet. */
  lemma AskingIsNoted(db: Db, booking: Id, date: int, time: string)
    requires booking in db.bookings && db.moves == map[]
    ensures Step(db, 1, RescheduleAsked(7, booking, date, time))
            == db.(moves := map[7 := MoveRequest(booking, date, time, true)])
  {
  }

  lemma NewTimeIsAsked(db: Db, run: seq<Dated>, booking: Id, date: int, time: string)
    requires booking in Exec(db, run).bookings && Exec(db, run).moves == map[]
    ensures Exec(db, run + [Dated(1, RescheduleAsked(7, booking, date, time))])
            == Exec(db, run).(moves := map[7 := MoveRequest(booking, date, time, true)])
  {
    AskingIsNoted(Exec(db, run), booking, date, time);
    ExecOne(db, run, Dated(1, RescheduleAsked(7, booking, date, time)));
  }

  // ----- Two parties at one table

  /** A party has both tables in the evening; other guests book table 2 at noon. */
  function BookNoon(tables: seq<Id>, noon: string, evening: string): seq<Dated> {
    BookBoth(tables, evening) + [Dated(1, StaffBooks(Some(2), DraftFor(noon), true, 2))]
  }

  /** Those guests then ask for the evening. */
  function AskForTakenEvening(tables: seq<Id>, noon: string, evening: string): seq<Dated> {
    BookNoon(tables, noon, evening) + [Dated(1, RescheduleAsked(7, 2, 1, evening))]
  }

  /** The party at both tables in the evening, and guests at table 2 at noon. */
  ghost predicate BothParties(db: Db) {
    && OpenTables(db.tables) && db.bookings.Keys == {1, 2} && db.blocks == map[]
    && Seated(db.bookings[1], 1, {1, 2}, 1, 1080) && Seated(db.bookings[2], 2, {}, 1, 720)
  }

  lemma NoonIsClearOfEvening(db: Db)
    requires db.bookings.Keys == {1} && Seated(db.bookings[1], 1, {1, 2}, 1, 1080)
    ensures Clear(db.bookings, 2, 1, None, BookingsReader, 720, 720 + DEFAULT_DURATION + CLEANUP)
  {
  }

  lemma StaffAddNoon(db: Db, run: seq<Dated>, noon: string)
    requires OneParty(Exec(db, run), 1080) && ParseTime(noon) == Some(720)
    ensures var after := Exec(db, run + [Dated(1, StaffBooks(Some(2), DraftFor(noon), true, 2))]);
            BothParties(after) && after.moves == Exec(db, run).moves
  {
    NoonIsClearOfEvening(Exec(db, run));
    StaffBookFreeTable(Exec(db, run), 2, noon, 2);
    DraftIsSeated(noon, 2, map[]);
    ExecOne(db, run, Dated(1, StaffBooks(Some(2), DraftFor(noon), true, 2)));
  }

  lemma EveningBooksTableTwice(db: Db, evening: string)
    requires BothParties(db) && Means(evening, 1080)
    requires 7 in db.moves && db.moves[7] == MoveRequest(2, 1, evening, true)
    ensures ApproveReschedule(db, 1, 7).Done? && !Sound(ApproveReschedule(db, 1, 7).db.bookings)
  {
    NewTimeIsGranted(db, 7, 2, 2, {}, 1, 720, evening);
    TableTwice(ApproveReschedule(db, 1, 7).db.bookings);
  }

  lemma TableTwice(bookings: map<Id, Booking>)
    requires bookings.Keys == {1, 2}
    requires Seated(bookings[1], 1, {1, 2}, 1, 1080) && Seated(bookings[2], 2, {}, 1, 1080)
    ensures !Sound(bookings)
  {
    assert 2 in bookings[1].Tables() && 2 in bookings[2].Tables();
    assert AllWritten(bookings) ==> Collide(bookings[1], bookings[2]);
  }

  lemma TakenEveningEndsRun(db: Db, run: seq<Dated>, evening: string)
    requires BothParties(Exec(db, run)) && Exec(db, run).moves == map[7 := MoveRequest(2, 1, evening, true)]
    requires Means(evening, 1080)
    ensures !Sound(Exec(db, run + [Dated(1, RescheduleApproved(7))]).bookings)
  {
    EveningBooksTableTwice(Exec(db, run), evening);
    GrantStep(Exec(db, run), 1, 7);
    LastStepLeavesSound(db, run, Dated(1, RescheduleApproved(7)));
  }

  lemma TakenEveningIsAsked(db: Db, tables: seq<Id>, noon: string, evening: string)
    requires NothingYet(db) && Both(tables) && ParseTime(noon) == Some(720) && ParseTime(evening) == Some(1080)
    ensures var after := Exec(db, AskForTakenEvening(tables, noon, evening));
            BothParties(after) && after.moves == map[7 := MoveRequest(2, 1, evening, true)]
  {
    StaffBookBoth(db, tables, evening);
    StaffAddNoon(db, BookBoth(tables, evening), noon);
    NewTimeIsAsked(db, BookNoon(tables, noon, evening), 2, 1, evening);
  }

  /** Four ordinary steps from empty books, and table 2 is promised twice. */
  lemma RescheduleCanDoubleBook()
    ensures var run := AskForTakenEvening([1, 2], NOON, EVENING);
            && Sound(Exec(EmptyBooks(), run).bookings)
            && !Sound(Exec(EmptyBooks(), run + [Dated(1, RescheduleApproved(7))]).bookings)
  {
    Noon();
    Evening();
    EveningIsNormal();
    EachOnce();
    EmptyBooksAreInOrder();
    TakenEveningIsGranted(EmptyBooks(), [1, 2], NOON, EVENING);
  }

  lemma TakenEveningIsGranted(db: Db, tables: seq<Id>, noon: string, evening: string)
    requires NothingYet(db) && Both(tables) && ParseTime(noon) == Some(720) && Means(evening, 1080)
    ensures var run := AskForTakenEvening(tables, noon, evening);
            && Sound(Exec(db, run).bookings)
            && !Sound(Exec(db, run + [Dated(1, RescheduleApproved(7))]).bookings)
  {
    var run := AskForTakenEvening(tables, noon, evening);
    RunsNeverDoubleBook(db, run);
    TakenEveningIsAsked(db, tables, noon, evening);
    TakenEveningEndsRun(db, run, evening);
  }

  // ----- A party at a table that is planned as unavailable

  /** A party has both tables at noon; table 2 is planned as unavailable tomorrow. */
  function PlanTomorrow(tables: seq<Id>, noon: string): seq<Dated> {
    BookBoth(tables, noon) + [Dated(1, BlockPlanned(Some(TableTarget(2)), 2, None, None, true, 3))]
  }

  /** The party then asks for tomorrow evening. */
  function AskForBlockedEvening(tables: seq<Id>, noon: string, evening: string): seq<Dated> {
    PlanTomorrow(tables, noon) + [Dated(1, RescheduleAsked(7, 1, 2, evening))]
  }

  /** The party at both tables today, and table 2 unavailable tomorrow. */
  ghost predicate PartyAndBlock(db: Db) {
    && OpenTables(db.tables) && db.bookings.Keys == {1} && db.blocks == map[3 := Block(TableTarget(2), 2, None)]
    && Seated(db.bookings[1], 1, {1, 2}, 1, 720)
  }

  lemma StaffPlanTomorrow(db: Db, run: seq<Dated>)
    requires OneParty(Exec(db, run), 720)
    ensures var after := Exec(db, run + [Dated(1, BlockPlanned(Some(TableTarget(2)), 2, None, None, true, 3))]);
            PartyAndBlock(after) && after.moves == Exec(db, run).moves
  {
    PlanFreeDay(Exec(db, run), 2, 2, 3);
    ExecOne(db, run, Dated(1, BlockPlanned(Some(TableTarget(2)), 2, None, None, true, 3)));
  }

  lemma EveningSitsInBlock(db: Db, evening: string)
    requires PartyAndBlock(db) && Means(evening, 1080)
    requires 7 in db.moves && db.moves[7] == MoveRequest(1, 2, evening, true)
    ensures ApproveReschedule(db, 1, 7).Done? && !Apart(ApproveReschedule(db, 1, 7).db)
  {
    NewTimeIsGranted(db, 7, 1, 1, {1, 2}, 2, 720, evening);
    var after := ApproveReschedule(db, 1, 7).db;
    assert 2 in after.bookings[1].Tables() && after.blocks[3].AppliesTo(2, ZoneOf(after.tables, 2));
    assert AllWritten(after.bookings) ==> SitsIn(after.tables, after.bookings[1], after.blocks[3]);
  }

  lemma BlockedEveningEndsRun(db: Db, run: seq<Dated>, evening: string)
    requires PartyAndBlock(Exec(db, run)) && Exec(db, run).moves == map[7 := MoveRequest(1, 2, evening, true)]
    requires Means(evening, 1080)
    ensures !Apart(Exec(db, run + [Dated(1, RescheduleApproved(7))]))
  {
    EveningSitsInBlock(Exec(db, run), evening);
    GrantStep(Exec(db, run), 1, 7);
    LastStepLeavesApart(db, run, Dated(1, RescheduleApproved(7)));
  }

  lemma BlockedEveningIsAsked(db: Db, tables: seq<Id>, noon: string, evening: string)
    requires NothingYet(db) && Both(tables) && ParseTime(noon) == Some(720)
    ensures var after := Exec(db, AskForBlockedEvening(tables, noon, evening));
            PartyAndBlock(after) && after.moves == map[7 := MoveRequest(1, 2, evening, true)]
  {
    StaffBookBoth(db, tables, noon);
    StaffPlanTomorrow(db, BookBoth(tables, noon));
    NewTimeIsAsked(db, PlanTomorrow(tables, noon), 1, 2, evening);
  }

  /** A party given a new time sits, at a table it was assigned, in planned unavailability. */
  lemma RescheduleCanEnterABlock()
    ensures var run := AskForBlockedEvening([1, 2], NOON, EVENING);
            && Apart(Exec(EmptyBooks(), run))
            && !Apart(Exec(EmptyBooks(), run + [Dated(1, RescheduleApproved(7))]))
  {
    Noon();
    Evening();
    EveningIsNormal();
    EachOnce();
    EmptyBooksAreInOrder();
    BlockedEveningIsGranted(EmptyBooks(), [1, 2], NOON, EVENING);
  }

  lemma BlockedEveningIsGranted(db: Db, tables: seq<Id>, noon: string, evening: string)
    requires NothingYet(db) && Both(tables) && ParseTime(noon) == Some(720) && Means(evening, 1080)
    ensures var run := AskForBlockedEvening(tables, noon, evening);
            && Apart(Exec(db, run))
            && !Apart(Exec(db, run + [Dated(1, RescheduleApproved(7))]))
  {
    var run := AskForBlockedEvening(tables, noon, evening);
    RunsKeepBookingsOutOfBlocks(db, run);
    BlockedEveningIsAsked(db, tables, noon, evening);
    BlockedEveningEndsRun(db, run, evening);
  }

  // ----- A table whose number is nothing but space

  const SPACE: string := " "

  lemma SpaceIsBlank()
    ensures Named(Some(SPACE)) && Blank(Some(SPACE))
  {
  }

  /** A guest, known by phone and device, for the usual length. */
  function GuestDraft(guest: nat, date: int, time: string): Draft {
    Draft(date, time, Missing, 2, Some(guest), Some(guest))
  }

  /** A guest asks for a table by an id no table has and by a number of one space. */
  function AskBlank(guest: nat, date: int, time: string, newTable: Id, id: Id): Dated {
    Dated(1, GuestBooks(Some(5), Some(SPACE), GuestDraft(guest, date, time), 4, true, newTable, id))
  }

  function PlanBlank(): Dated { Dated(1, BlockPlanned(Some(TableTarget(9)), 2, None, None, true, 3)) }

  /** The table made for the space, and one booking at it today. */
  ghost predicate SpaceTaken(db: Db) {
    && db.tables.Keys == {1, 2, 9} && CanBeBooked(db, 9) && db.numbers == map[SPACE := 9]
    && db.bookings.Keys == {1} && db.bookings[1].date == 1
  }

  lemma NewTableIsMade(db: Db, draft: Draft)
    requires db.tables.Keys == {1, 2} && db.numbers == map[]
    ensures GuestRequest(db, 1, Some(5), Some(SPACE), draft, 4, true, 9, 1)
            == Place(WithTable(db, 9, SPACE, 4), 1, 9, {9}, map[], draft, Pending, 1)
  {
    SpaceIsBlank();
  }

  lemma FirstGuestIsPlaced(db: Db, draft: Draft)
    requires db.tables.Keys == {1, 2} && db.numbers == map[] && db.bookings == map[] && db.blocks == map[]
    requires ParseTime(draft.time).Some? && draft.date == 1
    ensures var o := Place(WithTable(db, 9, SPACE, 4), 1, 9, {9}, map[], draft, Pending, 1);
            o.Done? && SpaceTaken(o.db) && o.db.blocks == map[]
  {
    assert CanBeBooked(WithTable(db, 9, SPACE, 4), 9);
  }

  lemma FirstGuestAsks(db: Db, time: string)
    requires NothingYet(db) && Apart(db) && db.numbers == map[] && ParseTime(time).Some?
    ensures var after := Exec(db, [AskBlank(1, 1, time, 9, 1)]);
            SpaceTaken(after) && Apart(after) && after.blocks == map[]
  {
    var draft := GuestDraft(1, 1, time);
    NewTableIsMade(db, draft);
    FirstGuestIsPlaced(db, draft);
    GuestRequestExactly(db, 1, Some(5), Some(SPACE), draft, 4, true, 9, 1);
    ExecFirst(db, AskBlank(1, 1, time, 9, 1));
  }

  lemma StaffPlanBlank(db: Db, run: seq<Dated>)
    requires SpaceTaken(Exec(db, run)) && Apart(Exec(db, run)) && Exec(db, run).blocks == map[]
    ensures var after := Exec(db, run + [PlanBlank()]);
            SpaceTaken(after) && Apart(after) && after.blocks == map[3 := Block(TableTarget(9), 2, None)]
  {
    var before := Exec(db, run);
    PlanFreeDay(before, 9, 2, 3);
    CreateBlockKeepsApart(before, 1, Some(TableTarget(9)), 2, None, None, true, 3);
    ExecOne(db, run, PlanBlank());
  }

  /** Nobody checks the second guest's table, and nothing else stands in the way. */
  lemma SecondGuestIsPlaced(db: Db, time: string)
    requires SpaceTaken(db) && ParseTime(time).Some?
    ensures GuestRequest(db, 1, Some(5), Some(SPACE), GuestDraft(2, 2, time), 4, true, 10, 2).Done?
  {
    SpaceIsBlank();
    assert Checked(db, Some(5), Some(SPACE)) == None && Resolve(db, Some(5), Some(SPACE)) == Some(9);
  }

  lemma SecondGuestAsks(db: Db, time: string)
    requires SpaceTaken(db) && Apart(db) && db.blocks == map[3 := Block(TableTarget(9), 2, None)]
    requires ParseTime(time).Some?
    ensures var o := GuestRequest(db, 1, Some(5), Some(SPACE), GuestDraft(2, 2, time), 4, true, 10, 2);
            o.Done? && !Apart(o.db)
  {
    var draft := GuestDraft(2, 2, time);
    SecondGuestIsPlaced(db, time);
    SpaceIsBlank();
    BlockedAllDay(db, 3, 9, 2, ZoneOf(db.tables, 9), ParseTime(time).value, draft.Until());
    GuestRequestExactly(db, 1, Some(5), Some(SPACE), draft, 4, true, 10, 2);
  }

  lemma RequestStep(db: Db, e: Event)
    requires e.GuestBooks? && Handle(db, 1, e).Done?
    ensures Step(db, 1, e)
            == GuestRequest(db, 1, e.table, e.number, e.draft, e.seats, e.admitted, e.newTable, e.id).db
  {
  }

  lemma SecondGuestEndsRun(db: Db, run: seq<Dated>, time: string)
    requires SpaceTaken(Exec(db, run)) && Apart(Exec(db, run)) && ParseTime(time).Some?
    requires Exec(db, run).blocks == map[3 := Block(TableTarget(9), 2, None)]
    ensures !Apart(Exec(db, run + [AskBlank(2, 2, time, 10, 2)]))
  {
    SecondGuestAsks(Exec(db, run), time);
    RequestStep(Exec(db, run), AskBlank(2, 2, time, 10, 2).event);
    LastStepLeavesApart(db, run, AskBlank(2, 2, time, 10, 2));
  }

  /** A guest asks for a table by a space, and it is made; staff plan it as unavailable tomorrow; another guest asks
      for it by the same space, and sits in the block. */
  lemma BlankNumberCanEnterABlock()
    ensures var run := [AskBlank(1, 1, EVENING, 9, 1)] + [PlanBlank()];
            && Apart(Exec(EmptyBooks(), run))
            && !Apart(Exec(EmptyBooks(), run + [AskBlank(2, 2, EVENING, 10, 2)]))
  {
    var run := [AskBlank(1, 1, EVENING, 9, 1)];
    Evening();
    EmptyBooksAreInOrder();
    EmptyBooksAreApart();
    FirstGuestAsks(EmptyBooks(), EVENING);
    StaffPlanBlank(EmptyBooks(), run);
    SecondGuestEndsRun(EmptyBooks(), run + [PlanBlank()], EVENING);
  }

  lemma EmptyBooksAreApart()
    ensures Apart(EmptyBooks()) && EmptyBooks().numbers == map[]
  {
  }
}
