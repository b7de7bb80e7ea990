/** Two short runs of one table: an open and a closed read, heard as `occupied` and `free`; and, without verified
    visibility, an opening in silence, so that `free` is the first thing said. */
module SyrveWitnesses {
  import opened Basics
  import opened SyrveOrders
  import opened SyrveObserver
  import opened SyrveState
  import opened SyrveEvidence
  import opened SyrvePoll
  import opened SyrvePollLaws
  import opened SyrveWebhook
  import opened SyrveSystem

  /** Integration 1 under configuration 2 of organization 3: table 4 here is table 5 there. */
  const HERE: Scope := Scope(1, 2, 3, 4, 5)

  /** Bill 7 on that table, at register group 6. */
  function Bill(timestamp: int, state: Verdict): Order {
    Order(7, timestamp, Some(if state == Open then StatusNew else StatusClosed), {5}, Some(6), state, None)
  }

  function Before(): SyncState { CreateState(HERE, 10) }

  /** A complete read that shows the bill open. */
  function CompleteRead(): Probe {
    Probe(3, Checks(true, true, true, true, true, true), Some(Groups({6}, {})), Some([CatalogTable(5, 6, false)]),
          Some(map[6 := true]), Some([Bill(100, Open)]), None)
  }

  /** Its poll, without verified visibility. */
  function UnverifiedPoll(): Event { Poll(0, Fence(HERE, 10, 11, Some(HERE)), Single(CompleteRead()), false) }

  /** The notification that the bill was closed. */
  function ClosingNotice(): Event {
    Notify(Bill(101, Closed), Topology(3, 2, [CatalogTable(5, 6, false)], {6}, {5}, {Bill(100, Open)}), [12])
  }

  /** The table with the bill in one of its two versions. */
  function With(bill: Order, active: set<Uuid>, revision: Uuid): SyncState {
    SyncState(HERE, revision, bill.state, active, {}, map[7 := Version(bill.timestamp, bill.state, Some(Print(bill)))])
  }

  lemma BillIsRead()
    ensures ObservedOrders(CompleteRead(), {}) == map[7 := Bill(100, Open)]
  {
    var rows := ReadRows(CompleteRead());
    assert rows == [Bill(100, Open)] && rows[..0] == [];
    assert Merge(rows) == map[7 := Bill(100, Open)];
  }

  lemma PageIsSeen()
    ensures ReadPage(Before(), {}, Batch({}, CompleteRead()), false) == PageSeen(map[7 := Bill(100, Open)], 6)
  {
    BillIsRead();
    assert 7 in OpenOn(CompleteRead(), true, map[7 := Bill(100, Open)], 5);
  }

  lemma OnePage(s: SyncState, input: ProbeInput, orders: map<Uuid, Order>, group: Uuid)
    requires input.Single? && Plan(s) == [{}] && ValidOrders(orders)
    requires ReadPage(s, {}, Batch({}, input.probe), false) == PageSeen(orders, group)
    ensures EvidenceFrom(s, input) == Evidence(JoinAll([orders]))
  {
    assert Gather(PagesFrom(s, input), 0) == Read([], None);
  }

  lemma JoinOne(orders: map<Uuid, Order>)
    requires KeyedById(orders)
    ensures JoinAll([orders]) == orders
  {
    assert [orders][..0] == [];
  }

  lemma BillIsEvidence()
    ensures EvidenceFrom(Before(), Single(CompleteRead())) == Evidence(map[7 := Bill(100, Open)])
  {
    PageIsSeen();
    OnePage(Before(), Single(CompleteRead()), map[7 := Bill(100, Open)], 6);
    JoinOne(map[7 := Bill(100, Open)]);
  }

  lemma ViewOpens(v: View)
    requires v.s == Before() && v.orders == map[7 := Bill(100, Open)] && v.departed == {} && v.known == {}
    ensures v.Next() == With(Bill(100, Open), {7}, 10)
  {
    assert v.Candidates() == {7} && v.Assess(7) == Accepted(false);
    assert v.Written() == {7} == v.AcceptedIds() && v.RepairIds() == {};
  }

  lemma NothingDeparts(probes: seq<Probe>)
    ensures DepartedIds(map[7 := Bill(100, Open)], 5, probes) == {}
  {
  }

  lemma BillIsWeighed(e: PollEvent)
    requires e.fence == Fence(HERE, 10, 11, Some(HERE)) && e.input == Single(CompleteRead()) && e.known == {}
    ensures EvidenceFrom(Before(), e.input) == Evidence(map[7 := Bill(100, Open)])
    ensures ViewOf(Before(), e, map[7 := Bill(100, Open)]).Next() == With(Bill(100, Open), {7}, 10)
  {
    BillIsEvidence();
    NothingDeparts(Probes(e.input));
    ViewOpens(ViewOf(Before(), e, map[7 := Bill(100, Open)]));
  }

  lemma PollState(e: PollEvent)
    requires e.fence == Fence(HERE, 10, 11, Some(HERE)) && e.input == Single(CompleteRead()) && e.known == {}
    ensures ReducePoll(Before(), e).Done?
    ensures ReducePoll(Before(), e).value.state == With(Bill(100, Open), {7}, 11)
  {
    BillIsWeighed(e);
    assert Probes(e.input) == [CompleteRead()];
  }

  lemma PollOpensSilently()
    ensures Step([Before()], UnverifiedPoll()) == StepResult([With(Bill(100, Open), {7}, 11)], [None])
  {
    var e := PollOf([Before()], UnverifiedPoll());
    assert e.known == {};
    PollState(e);
    assert 7 in ReducePoll(Before(), e).value.state.active;
    OpeningSpeaksIffVisible(Before(), e);
  }

  lemma NoticeCloses(h: Hook, s: SyncState)
    requires s == With(Bill(100, Open), {7}, 11) && h.states == [s] && h.order == Bill(101, Closed)
    requires h.topology == Topology(3, 2, [CatalogTable(5, 6, false)], {6}, {5}, {Bill(100, Open)})
    ensures !h.Stale() && !h.Clashes() && h.Next(s) == With(Bill(101, Closed), {}, 11)
    ensures h.TopologyFits() && h.Acceptable([12])
  {
    assert h.CanClose(s);
  }

  lemma NoticeIsHeard(h: Hook, s: SyncState)
    requires s == With(Bill(100, Open), {7}, 11) && h.states == [s] && h.order == Bill(101, Closed)
    requires h.topology == Topology(3, 2, [CatalogTable(5, 6, false)], {6}, {5}, {Bill(100, Open)})
    ensures h.Step(s, 12).Done? && h.Step(s, 12).value.transition.state == With(Bill(101, Closed), {}, 12)
    ensures h.Step(s, 12).value.status == Some(TableEvent.Free)
  {
    NoticeCloses(h, s);
    WebhookSpeaks(h, s, 12);
    assert 7 in s.active;
  }

  lemma NoticeFrees()
    ensures Step([With(Bill(100, Open), {7}, 11)], ClosingNotice())
            == StepResult([With(Bill(101, Closed), {}, 12)], [Some(TableEvent.Free)])
  {
    var s, e := With(Bill(100, Open), {7}, 11), ClosingNotice();
    NoticeCloses(Hook([s], e.order, e.topology), s);
    NoticeIsHeard(Hook([s], e.order, e.topology), s);
  }

  /** Without verified visibility a `free` can be the first thing a table ever says. */
  lemma SilentOpeningThenFree()
    ensures ValidSystem([Before()]) && Before().active == {}
    ensures Emitted([Before()], [UnverifiedPoll(), ClosingNotice()], 0) == [None, Some(TableEvent.Free)]
  {
    var events := [UnverifiedPoll(), ClosingNotice()];
    PollOpensSilently();
    NoticeFrees();
    assert events[..1] == [UnverifiedPoll()] && events[..0] == [];
  }

  // ----- With verified visibility

  function VerifiedPoll(): Event { Poll(0, Fence(HERE, 10, 11, Some(HERE)), Single(CompleteRead()), true) }

  /** The next complete read, which also asks for the saved bill by its id, shows it closed. */
  function ClosedRead(): Probe {
    CompleteRead().(byTable := Some([Bill(101, Closed)]), byId := Some([Bill(101, Closed)]))
  }

  function ClosingPoll(): Event { Poll(0, Fence(HERE, 11, 12, Some(HERE)), Single(ClosedRead()), true) }

  lemma PollOpensAloud()
    ensures Step([Before()], VerifiedPoll()) == StepResult([With(Bill(100, Open), {7}, 11)], [Some(Occupied)])
  {
    var e := PollOf([Before()], VerifiedPoll());
    assert e.known == {};
    PollState(e);
    assert 7 in ReducePoll(Before(), e).value.state.active;
    OpeningSpeaksIffVisible(Before(), e);
  }

  lemma ClosedBillIsRead()
    ensures ObservedOrders(ClosedRead(), {7}) == map[7 := Bill(101, Closed)]
  {
    var rows := ReadRows(ClosedRead());
    assert rows == [Bill(101, Closed), Bill(101, Closed)] && rows[..1] == [Bill(101, Closed)] && rows[..1][..0] == [];
    assert Merge(rows[..1]) == map[7 := Bill(101, Closed)];
    assert Merge(rows) == map[7 := Bill(101, Closed)];
  }

  lemma OneBillToAskFor(s: SyncState)
    requires s == With(Bill(100, Open), {7}, 11)
    ensures Plan(s) == [{7}]
  {
    assert IdsToObserve(s) == {7};
    var row := Sorted({7});
    ElementsCount(row);
  }

  lemma ClosedPageIsSeen(s: SyncState)
    requires s == With(Bill(100, Open), {7}, 11)
    ensures ReadPage(s, {7}, Batch({7}, ClosedRead()), false) == PageSeen(map[7 := Bill(101, Closed)], 6)
  {
    ClosedBillIsRead();
    assert s.active * {7} == {7};
  }

  lemma ClosedBillIsEvidence(s: SyncState)
    requires s == With(Bill(100, Open), {7}, 11)
    ensures EvidenceFrom(s, Single(ClosedRead())) == Evidence(map[7 := Bill(101, Closed)])
  {
    OneBillToAskFor(s);
    ClosedPageIsSeen(s);
    assert Gather(PagesFrom(s, Single(ClosedRead())), 0) == Read([], None);
    JoinOne(map[7 := Bill(101, Closed)]);
  }

  /** The second poll, captured after the first. */
  ghost predicate Closes(s: SyncState, e: PollEvent) {
    && s == With(Bill(100, Open), {7}, 11) && e.fence == Fence(HERE, 11, 12, Some(HERE)) && e.visible
    && e.input == Single(ClosedRead()) && e.known == {VersionRow(7, s.versions[7])}
  }

  lemma ClosedBillIsWeighed(s: SyncState, e: PollEvent)
    requires Closes(s, e)
    ensures Weighed(s, e) && ReadBills(s, e) == map[7 := Bill(101, Closed)]
  {
    ClosedBillIsEvidence(s);
    assert Probes(e.input) == [ClosedRead()];
  }

  lemma ClosedBillIsNewest(s: SyncState, e: PollEvent)
    requires Closes(s, e)
    ensures Newest(s, e.known, Bill(101, Closed)) && !Outdated(s, e.known, Bill(101, Closed))
    ensures AllRead(s, map[7 := Bill(101, Closed)], Probes(e.input))
  {
    assert KnownOf(s, e.known, 7) == {s.versions[7]};
  }

  lemma ClosedRow(s: SyncState, e: PollEvent, closes: bool)
    requires Closes(s, e)
    ensures RowAfter(s, e.known, Bill(101, Closed), Probes(e.input), closes)
            == Some(Version(101, Closed, Some(Print(Bill(101, Closed)))))
  {
    ClosedBillIsNewest(s, e);
  }

  lemma ClosedBillSettles(s: SyncState, e: PollEvent)
    requires Closes(s, e)
    ensures Weighed(s, e) && Settled(s, e)
    ensures VersionOf(After(s, e), 7) == Some(Version(101, Closed, Some(Print(Bill(101, Closed)))))
  {
    ClosedBillIsWeighed(s, e);
    ClosedBillIsNewest(s, e);
    forall id ensures VersionOf(After(s, e), id)
                      == if id == 7 then Some(Version(101, Closed, Some(Print(Bill(101, Closed))))) else None
    {
      LedgerAfter(s, e, id);
      ClosedRow(s, e, e.visible && Settled(s, e));
    }
    forall id | id in After(s, e).versions ensures After(s, e).versions[id].state != Unknown {
      assert VersionOf(After(s, e), id) == Some(After(s, e).versions[id]);
    }
  }

  lemma ClosedBillLeaves(s: SyncState, e: PollEvent)
    requires Closes(s, e)
    ensures Weighed(s, e) && After(s, e).active == {}
  {
    ClosedBillIsWeighed(s, e);
    ClosedBillSettles(s, e);
    ClosedBillIsNewest(s, e);
    forall id ensures id !in After(s, e).active {
      if id == 7 { BillLeavesExactly(s, e, id); } else { BillJoinsExactly(s, e, id); }
    }
  }

  lemma ClosedBillFrees(s: SyncState, e: PollEvent)
    requires Closes(s, e)
    ensures ReducePoll(s, e).Done? && StatusEvent(s, ReducePoll(s, e).value) == Some(TableEvent.Free)
  {
    ClosedBillLeaves(s, e);
    PollSpeaks(s, e);
    assert 7 in s.active && !IsLegacyTransferRepair(VersionOf(s, 7), VersionOf(After(s, e), 7));
  }

  /** Read open, then read closed: a table with one bill is said to be occupied, and then free. */
  lemma OpenThenClosed()
    ensures Emitted([Before()], [VerifiedPoll(), ClosingPoll()], 0) == [Some(Occupied), Some(TableEvent.Free)]
  {
    var events, s := [VerifiedPoll(), ClosingPoll()], With(Bill(100, Open), {7}, 11);
    PollOpensAloud();
    ClosedRowIsKnown([s]);
    ClosedBillFrees(s, PollOf([s], ClosingPoll()));
    assert events[..1] == [VerifiedPoll()] && events[..0] == [];
  }

  lemma ClosedRowIsKnown(sys: System)
    requires sys == [With(Bill(100, Open), {7}, 11)]
    ensures PollOf(sys, ClosingPoll()).known == {VersionRow(7, sys[0].versions[7])}
  {
    assert Bill(101, Closed) in ReadRows(ClosedRead());
    assert ObservedIds(Single(ClosedRead())) == {7} by {
      forall p, o | p in Probes(Single(ClosedRead())) && o in ReadRows(p) ensures o.id == 7 {
      }
      assert ClosedRead() in Probes(Single(ClosedRead()));
    }
  }
}
