/** Which answers of the provider are taken and what they are worth, said of their fields alone, with the numbers. */
module SyrveReadLaws {
  import opened Basics
  import opened SyrveOrders
  import opened SyrveParser
  import opened SyrveObserver
  import opened SyrveState
  import opened SyrveEvidence

  // ----- Rows of an answer

  /** A bill's row is taken exactly when it names a bill, of the organization asked about and, where bills were asked
      for by id, one of those; its version is a safe integer; its creation is in a known state; and, once created, its
      body names one to two thousand different tables, one of those asked about if tables were, a cash group, and a
      status of some sort. */
  lemma RowTakenExactly(row: RawOrder, organization: Uuid, query: Query)
    ensures Acceptable(Some(row), organization, query) <==>
            && row.id.Some? && row.organization == Some(organization)
            && row.timestamp.Some? && 0 <= row.timestamp.value <= 9_007_199_254_740_991
            && row.creation in {Creation.Success, Creation.InProgress, Creation.Failed}
            && (query.ById? ==> row.id.value in query.ids)
            && (row.creation == Creation.Success ==>
                  && row.body.Some? && row.body.value.group.Some? && row.body.value.status != Malformed
                  && row.body.value.tables.Some?
                  && var tables := row.body.value.tables.value;
                     && 1 <= |tables| <= 2_000
                     && (forall i, j :: 0 <= i < j < |tables| ==> tables[i] != tables[j])
                     && (query.ByTable? ==> exists i :: 0 <= i < |tables| && tables[i] in query.tables))
  {
    if row.body.Some? && row.body.value.tables.Some? {
      var tables := row.body.value.tables.value;
      assert forall t :: t in Elements(tables) <==> t in tables;
      if query.ByTable? {
        if t :| t in Elements(tables) * query.tables { assert t in tables && t in query.tables; }
        if i :| 0 <= i < |tables| && tables[i] in query.tables { assert tables[i] in Elements(tables) * query.tables; }
      }
    }
  }

  lemma NoRowIsNotTaken(organization: Uuid, query: Query)
    ensures !Acceptable(None, organization, query)
  {
  }

  /** What a bill not created yet says: nothing but its version, and why. */
  lemma UncreatedBillMeans(row: RawOrder, organization: Uuid, query: Query)
    requires Acceptable(Some(row), organization, query) && row.creation != Creation.Success
    ensures Decode(Some(row), organization, query)
            == Order(row.id.value, row.timestamp.value, None, {}, None, Unknown,
                     Some(match row.creation case Failed => CreationError case _ => CreationInProgress))
  {
  }

  /** What a created bill says: its tables and cash group, and a verdict by its status: new and billed are open, closed
      and deleted are closed, any other status is unknown, and the reason for it. */
  lemma CreatedBillMeans(row: RawOrder, organization: Uuid, query: Query)
    requires Acceptable(Some(row), organization, query) && row.creation == Creation.Success
    ensures var o, body := Decode(Some(row), organization, query), row.body.value;
            && o.id == row.id.value && o.timestamp == row.timestamp.value && o.group == body.group
            && (forall t :: t in o.tables <==> t in body.tables.value)
            && match body.status
               case Known(StatusNew) => o.status == Some(StatusNew) && o.state == Open && o.reason == None
               case Known(StatusBill) => o.status == Some(StatusBill) && o.state == Open && o.reason == None
               case Known(StatusClosed) => o.status == Some(StatusClosed) && o.state == Closed && o.reason == None
               case Known(StatusDeleted) => o.status == Some(StatusDeleted) && o.state == Closed && o.reason == None
               case _ => o.status == None && o.state == Unknown && o.reason == Some(UnknownOrderStatus)
  {
  }

  /** A register's row is taken exactly when it is one asked about, of the organization, and says whether it is alive;
      and then it says just that. */
  lemma RegisterTakenExactly(row: RawRegister, organization: Uuid, groups: seq<Uuid>)
    ensures AcceptableRegister(Some(row), organization, groups) <==>
            row.group.Some? && row.group.value in groups && row.organization == Some(organization) && row.alive.Some?
    ensures AcceptableRegister(Some(row), organization, groups) ==>
              DecodeRegister(Some(row), organization, groups) == Register(row.group.value, row.alive.value)
    ensures !AcceptableRegister(None, organization, groups)
  {
  }

  // ----- What a read bill is worth

  /** The catalogue's last entry for the table. */
  ghost predicate LastEntry(probe: Probe, t: Uuid, entry: CatalogTable) {
    probe.catalogTables.Some? && exists k ::
      0 <= k < |probe.catalogTables.value| && probe.catalogTables.value[k] == entry
      && entry.id == t && forall j :: k < j < |probe.catalogTables.value| ==> probe.catalogTables.value[j].id != t
  }

  lemma {:induction false} FoundLast(tables: seq<CatalogTable>, t: Uuid) returns (k: nat)
    requires FindLast(tables, t).Some?
    ensures k < |tables| && tables[k] == FindLast(tables, t).value && tables[k].id == t
    ensures forall j :: k < j < |tables| ==> tables[j].id != t
  {
    if tables[|tables| - 1].id == t { k := |tables| - 1; } else { k := FoundLast(tables[..|tables| - 1], t); }
  }

  lemma {:induction false} LastFound(tables: seq<CatalogTable>, t: Uuid, k: nat)
    requires k < |tables| && tables[k].id == t && forall j :: k < j < |tables| ==> tables[j].id != t
    ensures FindLast(tables, t) == Some(tables[k])
  {
    if k < |tables| - 1 { LastFound(tables[..|tables| - 1], t, k); }
  }

  lemma CataloguedMeans(probe: Probe, t: Uuid, entry: CatalogTable)
    ensures Catalogued(probe, t) == Some(entry) <==> LastEntry(probe, t, entry)
  {
    var tables := GetOr(probe.catalogTables, []);
    if Catalogued(probe, t) == Some(entry) {
      var k := FoundLast(tables, t);
    }
    if LastEntry(probe, t, entry) {
      var k :| 0 <= k < |tables| && tables[k] == entry && forall j :: k < j < |tables| ==> tables[j].id != t;
      LastFound(tables, t, k);
    }
  }

  /** The register answered that it is alive. */
  predicate SaidAlive(probe: Probe, group: Uuid) {
    match probe.availability case None => false case Some(answers) => group in answers && answers[group]
  }

  /** All parts of the read succeeded; the one by id counts only if some saved bill was asked for. */
  lemma ReadsSucceedExactly(probe: Probe, tracked: set<Uuid>)
    ensures AllReadsValid(probe, tracked) <==>
            var c := probe.checks;
            && c.connection && c.terminalGroups && c.restaurantSections && c.posAvailability && c.ordersByTable
            && (c.ordersById || tracked == {})
  {
  }

  /** What one merged bill is worth: nothing if some read failed; no verdict if its register did not answer as alive or
      some table of it is catalogued under another register; else what it said. */
  lemma QualifiedExactly(probe: Probe, valid: bool, o: Order)
    ensures var elsewhere := exists t, entry :: t in o.tables && LastEntry(probe, t, entry)
                                                && o.group != Some(entry.group);
            var q := Qualify(probe, valid, o);
            && q.id == o.id && q.timestamp == o.timestamp && q.tables == o.tables && q.group == o.group
            && if !valid then q.status == None && q.state == Unknown && q.reason == Some(ObservationFailed)
               else if o.group == None || !SaidAlive(probe, o.group.value) then
                 q.status == o.status && q.state == Unknown
                 && q.reason == (if o.reason != None then o.reason else Some(UnavailablePos))
               else if elsewhere then
                 q.status == o.status && q.state == Unknown && q.reason == Some(OrderTerminalGroupChanged)
               else q == o
  {
    forall t, entry ensures Catalogued(probe, t) == Some(entry) <==> LastEntry(probe, t, entry) {
      CataloguedMeans(probe, t, entry);
    }
  }

  // ----- One page of evidence

  /** The table can be judged: catalogued last as not deleted, with a live register. */
  ghost predicate Judgeable(probe: Probe, table: Uuid) {
    exists entry :: LastEntry(probe, table, entry) && !entry.isDeleted && SaidAlive(probe, entry.group)
  }

  lemma UsableExactly(probe: Probe, valid: bool, table: Uuid)
    ensures Usable(probe, valid, table) <==> valid && Judgeable(probe, table)
  {
    forall entry ensures Catalogued(probe, table) == Some(entry) <==> LastEntry(probe, table, entry) {
      CataloguedMeans(probe, table, entry);
    }
  }

  /** Why a table without an open bill cannot be judged, the first reason that applies; or that only its visibility is
      unverified. */
  lemma ReasonExactly(probe: Probe, valid: bool, table: Uuid)
    ensures TableReason(probe, valid, table, true) == None
    ensures TableReason(probe, valid, table, false) == Some(UnverifiedPosVisibility) <==>
            valid && Judgeable(probe, table) && probe.checks.posAvailability
    ensures TableReason(probe, valid, table, false) == Some(MissingTable) <==>
            probe.catalogTables.Some? && forall k :: 0 <= k < |probe.catalogTables.value| ==>
              probe.catalogTables.value[k].id != table
    ensures TableReason(probe, valid, table, false) == Some(DeletedTable) <==>
            exists entry :: LastEntry(probe, table, entry) && entry.isDeleted
    ensures TableReason(probe, valid, table, false) == Some(UnavailablePos) <==>
            probe.checks.posAvailability
            && exists entry :: LastEntry(probe, table, entry) && !entry.isDeleted && !SaidAlive(probe, entry.group)
  {
    forall entry ensures Catalogued(probe, table) == Some(entry) <==> LastEntry(probe, table, entry) {
      CataloguedMeans(probe, table, entry);
    }
    if probe.catalogTables.Some? && Catalogued(probe, table).Some? {
      var k := FoundLast(probe.catalogTables.value, table);
    }
  }

  /** A page is of this organization, within bounds, has what was planned, and was answered as asked. */
  predicate Answered(s: SyncState, planned: set<Uuid>, batch: Batch, paged: bool) {
    && batch.orderIds == planned && |planned| <= 2_000 && batch.probe.organization == s.scope.organization
    && batch.probe.byTable.Some? && |batch.probe.byTable.value| <= 2_000
    && (planned != {} ==> batch.probe.checks.ordersById && batch.probe.byId.Some?)
    && (batch.probe.byId.Some? ==> |batch.probe.byId.value| <= 2_000)
    && (paged && batch.probe.byId.Some? ==> forall o :: o in batch.probe.byId.value ==> o.id in planned)
  }

  /** A page counts exactly when it was answered as asked, all reads succeeded and the table can be judged; it then
      holds
      the bills read, each for what it is worth, and the cash group of the table's first catalogue entry. */
  lemma PageCountsExactly(s: SyncState, planned: set<Uuid>, batch: Batch, paged: bool)
    ensures ReadPage(s, planned, batch, paged).PageSeen? <==>
            && Answered(s, planned, batch, paged)
            && AllReadsValid(batch.probe, s.active * planned) && Judgeable(batch.probe, s.scope.syrveTable)
    ensures ReadPage(s, planned, batch, paged).PageSeen? ==>
              var found := FindFirst(GetOr(batch.probe.catalogTables, []), s.scope.syrveTable);
              && found.Some?
              && ReadPage(s, planned, batch, paged)
                 == PageSeen(ObservedOrders(batch.probe, s.active * planned), found.value.group)
  {
    var valid := AllReadsValid(batch.probe, s.active * batch.orderIds);
    UsableExactly(batch.probe, valid, s.scope.syrveTable);
    ReasonExactly(batch.probe, valid, s.scope.syrveTable);
  }

  /** A page is malformed, and aborts the poll, exactly when too many bills were asked for, or bills came by id that
      were not. */
  lemma PageMalformedExactly(s: SyncState, planned: set<Uuid>, batch: Batch, paged: bool)
    requires batch.orderIds == planned
    ensures ReadPage(s, planned, batch, paged).PageInvalid? <==>
            || |planned| > 2_000
            || (paged && batch.probe.byId.Some? && |batch.probe.byId.value| <= 2_000
                && batch.probe.organization == s.scope.organization
                && batch.probe.byTable.Some? && |batch.probe.byTable.value| <= 2_000
                && (planned != {} ==> batch.probe.checks.ordersById)
                && exists o :: o in batch.probe.byId.value && o.id !in planned)
  {
  }

  /** What was read of a bill: the merge of the rows by table and by id, each for what it is worth. */
  lemma ReadMeans(probe: Probe, tracked: set<Uuid>, id: Uuid)
    ensures id in ObservedOrders(probe, tracked) <==>
            || (probe.byTable.Some? && exists o :: o in probe.byTable.value && o.id == id)
            || (probe.byId.Some? && exists o :: o in probe.byId.value && o.id == id)
    ensures id in ObservedOrders(probe, tracked) ==>
              ObservedOrders(probe, tracked)[id]
              == Qualify(probe, AllReadsValid(probe, tracked),
                         Merge(GetOr(probe.byTable, []) + GetOr(probe.byId, []))[id])
  {
    MergeMeaning(ReadRows(probe), id);
  }

  /** A bill is well-formed exactly when its version is a safe integer and its status fits its verdict. */
  lemma ValidOrderExactly(o: Order)
    ensures ValidOrder(o) <==>
            && 0 <= o.timestamp <= 9_007_199_254_740_991
            && match o.state
               case Open => o.status == Some(StatusNew) || o.status == Some(StatusBill)
               case Closed => o.status == Some(StatusClosed) || o.status == Some(StatusDeleted)
               case Unknown => true
  {
  }

  /** Why a saved bill without a verdict is unknown: the table cannot be judged; or the bill was not read; or what was
      read says why; or it is read here without a reason; or it is somewhere else. */
  lemma LostExactly(usable: bool, orders: map<Uuid, Order>, table: Uuid, id: Uuid)
    ensures !usable ==> LostReason(usable, orders, table, id) == ObservationFailed
    ensures usable && id !in orders ==> LostReason(usable, orders, table, id) == MissingOrder
    ensures usable && id in orders && orders[id].reason != None ==>
              Some(LostReason(usable, orders, table, id)) == orders[id].reason
    ensures usable && id in orders && orders[id].reason == None && table in orders[id].tables ==>
              LostReason(usable, orders, table, id) == ObservationFailed
    ensures usable && id in orders && orders[id].reason == None && table !in orders[id].tables ==>
              LostReason(usable, orders, table, id) == OrderTableChanged
  {
  }

  /** A state is well-formed exactly when suppressed bills are active, active ones are in the ledger, it was last open
      iff it has active ones, and every version is a safe integer and without a print only when unknown. */
  lemma ValidStateExactly(s: SyncState)
    ensures Valid(s) <==>
            && (forall id :: id in s.freed ==> id in s.active) && (forall id :: id in s.active ==> id in s.versions)
            && (s.last == Open <==> exists id :: id in s.active)
            && (forall id :: id in s.versions ==>
                  0 <= s.versions[id].timestamp <= 9_007_199_254_740_991
                  && (s.versions[id].fingerprint == None ==> s.versions[id].state == Unknown))
  {
  }

  /** An old record of a transfer is repaired by the same version, read again with the same print, as closed. */
  lemma RepairExactly(before: Option<Version>, after: Option<Version>)
    ensures IsLegacyTransferRepair(before, after) <==>
            exists t, mark :: before == Some(Version(t, Unknown, Some(mark)))
                               && after == Some(Version(t, Closed, Some(mark)))
  {
    if IsLegacyTransferRepair(before, after) {
      assert before == Some(Version(before.value.timestamp, Unknown, Some(before.value.fingerprint.value)));
      assert after == Some(Version(before.value.timestamp, Closed, Some(before.value.fingerprint.value)));
    }
  }

  // ----- What is asked for, and all pages together

  /** A poll asks for exactly the active bills and those on hold. */
  lemma AskedForExactly(s: SyncState, id: Uuid)
    ensures (exists page :: page in Plan(s) && id in page) <==>
            id in s.active || (id in s.versions && s.versions[id].state == Unknown)
  {
    var ids := IdsToObserve(s);
    if ids == {} {
      assert Plan(s) == [{}];
      assert forall page :: page in Plan(s) ==> page == {};
    } else {
      PagesCover(Sorted(ids));
      assert Elements(Sorted(ids)) == ids;
      assert id in Sorted(ids) <==> id in ids;
      assert Plan(s) == Pages(Sorted(ids));
    }
    assert id in ids <==> id in s.active || (id in s.versions && s.versions[id].state == Unknown);
  }

  /** Pages make a reading exactly when every one counts, all bills are well-formed, and all show one cash group. */
  lemma {:induction false} ReadingExactly(pages: seq<Page>, n: nat)
    requires n <= |pages|
    ensures Gather(pages, n).Read? <==>
            && (forall i :: 0 <= i < n ==> pages[i].PageSeen? && ValidOrders(pages[i].orders))
            && (forall i, j :: 0 <= i < j < n ==> pages[i].group == pages[j].group)
    ensures Gather(pages, n).Read? ==>
              Gather(pages, n).group == if n == 0 then None else Some(pages[n - 1].group)
  {
    if n > 0 { ReadingExactly(pages, n - 1); }
  }
}
