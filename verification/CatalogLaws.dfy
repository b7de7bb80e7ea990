/** Which tables are proposed, missing or in conflict, said of the provider's tables and the restaurant's rows alone. */
module CatalogLaws {
  import opened Basics
  import opened Text
  import opened Catalog

  // ----- Places: how often an id or a number occurs

  /** Where the whole catalogue, deleted tables included, has this id. */
  ghost function WithId(tables: seq<SyrveTable>, id: Uuid): set<nat> { set i: nat | i < |tables| && tables[i].id == id }

  /** Where it has an active table of this number. */
  ghost function ActiveWith(tables: seq<SyrveTable>, n: int): set<nat> {
    set i: nat | i < |tables| && !tables[i].isDeleted && tables[i].number == n
  }

  /** The row's number: its digits, between spaces, as a number of at most 2147483647. */
  ghost predicate Carries(m: MoloTable, n: int) {
    var digits := Trim(m.tableNumber);
    digits != "" && (forall i :: 0 <= i < |digits| ==> '0' <= digits[i] <= '9')
      && n == NumberOf(digits) <= 2_147_483_647
  }

  ghost function RowsWith(rows: seq<MoloTable>, n: int): set<nat> { set i: nat | i < |rows| && Carries(rows[i], n) }

  lemma CarriesMeans(m: MoloTable, n: int)
    ensures Carries(m, n) <==> MoloNumber(m.tableNumber) == Some(n)
    ensures MoloNumber(m.tableNumber) == Some(n) <==> NumberKey(m) == Number(n)
  {
  }

  lemma OneMore<T(!new), K(!new)>(values: seq<T>, v: T, key: T -> K, k: K)
    ensures Members(values + [v], key, k) == Members(values, key, k) + (if key(v) == k then [v] else [])
  {
    GroupStep(values + [v], key, |values|);
    assert (values + [v])[..|values|] == values && (values + [v])[..|values| + 1] == values + [v];
  }

  lemma {:induction false} IdCount(tables: seq<SyrveTable>, id: Uuid)
    ensures |Members(tables, IdKey, id)| == |WithId(tables, id)|
  {
    GroupSize(tables, IdKey, id);
    assert Places(tables, IdKey, id) == WithId(tables, id);
  }

  lemma ActiveGrows(tables: seq<SyrveTable>)
    requires tables != []
    ensures var last := |tables| - 1;
            Active(tables)
            == if tables[last].isDeleted then Active(tables[..last]) else Active(tables[..last]) + [tables[last]]
  {
  }

  lemma ActivePlacesGrow(tables: seq<SyrveTable>, n: int)
    requires tables != []
    ensures var last := |tables| - 1;
            && last !in ActiveWith(tables[..last], n)
            && ActiveWith(tables, n)
               == ActiveWith(tables[..last], n)
                  + (if !tables[last].isDeleted && tables[last].number == n then {last} else {})
  {
  }

  lemma {:induction false} ActiveCount(tables: seq<SyrveTable>, n: int)
    ensures |Members(Active(tables), ProviderKey, Number(n))| == |ActiveWith(tables, n)|
  {
    if tables == [] {
      assert ActiveWith(tables, n) == {};
    } else {
      var last := |tables| - 1;
      ActiveCount(tables[..last], n);
      ActiveGrows(tables);
      ActivePlacesGrow(tables, n);
      OneMore(Active(tables[..last]), tables[last], ProviderKey, Number(n));
    }
  }

  lemma RowsAgree(rows: seq<MoloTable>, n: int)
    ensures Places(rows, NumberKey, Number(n)) == RowsWith(rows, n)
  {
    forall i | 0 <= i < |rows| ensures NumberKey(rows[i]) == Number(n) <==> Carries(rows[i], n) {
      CarriesMeans(rows[i], n);
    }
  }

  lemma NumberedRow(m: MoloTable, n: int)
    requires NumberKey(m) == Number(n)
    ensures MoloNumber(m.tableNumber).Some?
  {
  }

  lemma NumberedGrows(rows: seq<MoloTable>)
    requires rows != []
    ensures var n := |rows| - 1;
            Numbered(rows)
            == if MoloNumber(rows[n].tableNumber).Some? then Numbered(rows[..n]) + [rows[n]] else Numbered(rows[..n])
  {
  }

  lemma {:induction false} NumberedCount(rows: seq<MoloTable>, n: int)
    ensures |Members(Numbered(rows), NumberKey, Number(n))| == |Places(rows, NumberKey, Number(n))|
  {
    if rows == [] {
      GroupSize(rows, NumberKey, Number(n));
    } else {
      var last := |rows| - 1;
      NumberedCount(rows[..last], n);
      NumberedGrows(rows);
      OneMore(Numbered(rows[..last]), rows[last], NumberKey, Number(n));
      PlacesStep(rows, NumberKey, Number(n));
      if NumberKey(rows[last]) == Number(n) { NumberedRow(rows[last], n); }
    }
  }

  lemma RowCount(rows: seq<MoloTable>, n: int)
    ensures |Members(Numbered(rows), NumberKey, Number(n))| == |RowsWith(rows, n)|
  {
    NumberedCount(rows, n);
    RowsAgree(rows, n);
  }

  /** What the three indexes hold, counted in the lists themselves. */
  lemma IndexCounts(tables: seq<SyrveTable>, rows: seq<MoloTable>, id: Uuid, n: int)
    ensures var ix := IndexOf(tables, rows);
            && (id in ix.ids <==> WithId(tables, id) != {}) && (id in ix.ids ==> |ix.ids[id]| == |WithId(tables, id)|)
            && (Number(n) in ix.provider <==> ActiveWith(tables, n) != {})
            && |ix.Holders(Number(n))| == |ActiveWith(tables, n)|
            && (Number(n) in ix.molo <==> RowsWith(rows, n) != {}) && |ix.Matches(Number(n))| == |RowsWith(rows, n)|
  {
    IdCount(tables, id);
    ActiveCount(tables, n);
    RowCount(rows, n);
    GroupSize(tables, IdKey, id);
    GroupSize(Active(tables), ProviderKey, Number(n));
    GroupSize(Numbered(rows), NumberKey, Number(n));
  }

  /** And whose. */
  lemma IndexMembers(tables: seq<SyrveTable>, rows: seq<MoloTable>, id: Uuid, n: int)
    ensures var ix := IndexOf(tables, rows);
            && (id in ix.ids ==> SyrveIds(ix.ids[id]) == {id})
            && SyrveIds(ix.Holders(Number(n))) == TablesOf(tables, n)
            && MoloIds(ix.Matches(Number(n))) == RowsOf(rows, n)
  {
    GroupMeaning(tables, IdKey, id);
    GroupMembers(Active(tables), ProviderKey, Number(n));
    GroupMembers(Numbered(rows), NumberKey, Number(n));
    forall m ensures Carries(m, n) <==> MoloNumber(m.tableNumber).Some? && NumberKey(m) == Number(n) {
      CarriesMeans(m, n);
    }
    if id in IndexOf(tables, rows).ids {
      var t := IndexOf(tables, rows).ids[id][0];
      assert t in IndexOf(tables, rows).ids[id] && t.id == id;
    }
  }

  // ----- Proposed and missing tables

  /** A provider's table can be judged: its number is not negative, its id occurs once in the whole catalogue, and its
      number once among the active tables. */
  ghost predicate Judged(tables: seq<SyrveTable>, t: SyrveTable) {
    t.number >= 0 && |WithId(tables, t.id)| == 1 && |ActiveWith(tables, t.number)| == 1
  }

  lemma JudgedMeans(tables: seq<SyrveTable>, rows: seq<MoloTable>, t: SyrveTable)
    ensures IndexOf(tables, rows).Sole(t) <==> Judged(tables, t)
  {
    IndexCounts(tables, rows, t.id, t.number);
    EmptyOrNot(WithId(tables, t.id));
    EmptyOrNot(ActiveWith(tables, t.number));
  }

  lemma EmptyOrNot(s: set<nat>)
    ensures |s| == 0 <==> s == {}
  {
  }

  lemma MatchesMean(tables: seq<SyrveTable>, rows: seq<MoloTable>, m: MoloTable, n: int)
    ensures m in IndexOf(tables, rows).Matches(Number(n)) <==> m in rows && Carries(m, n)
  {
    GroupMembers(Numbered(rows), NumberKey, Number(n));
    CarriesMeans(m, n);
  }

  /** Exactly which tables are proposed, and for which row: those judged whose number exactly one row carries. */
  lemma ProposedExactly(tables: seq<SyrveTable>, rows: seq<MoloTable>, t: SyrveTable, m: MoloTable)
    requires t in tables && !t.isDeleted
    ensures var ix := IndexOf(tables, rows);
            Proposal(m, t) in ix.Proposals(|ix.active|) <==>
            Judged(tables, t) && m in rows && Carries(m, t.number) && |RowsWith(rows, t.number)| == 1
  {
    var ix := IndexOf(tables, rows);
    JudgedMeans(tables, rows, t);
    IndexCounts(tables, rows, t.id, t.number);
    MatchesMean(tables, rows, m, t.number);
    if Proposal(m, t) in ix.Proposals(|ix.active|) {
      var _ := ProposalSource(ix, |ix.active|, Proposal(m, t));
      assert m in ix.Matches(Number(t.number));
    }
    if ix.Sole(t) && |ix.Matches(Number(t.number))| == 1 {
      assert t in ix.active;
      var i :| 0 <= i < |ix.active| && ix.active[i] == t;
      Listed(ix, |ix.active|, i);
    }
  }

  /** Exactly which tables are missing: those judged whose number no row carries. */
  lemma MissingExactly(tables: seq<SyrveTable>, rows: seq<MoloTable>, t: SyrveTable)
    requires t in tables && !t.isDeleted
    ensures var ix := IndexOf(tables, rows);
            t in ix.Missing(|ix.active|) <==> Judged(tables, t) && forall m :: m in rows ==> !Carries(m, t.number)
  {
    var ix := IndexOf(tables, rows);
    JudgedMeans(tables, rows, t);
    IndexCounts(tables, rows, t.id, t.number);
    if t in ix.Missing(|ix.active|) { MissingSource(ix, |ix.active|, t); }
    assert RowsWith(rows, t.number) == {} <==> forall m :: m in rows ==> !Carries(m, t.number) by {
      if RowsWith(rows, t.number) == {} {
        forall m | m in rows ensures !Carries(m, t.number) {
          var i :| 0 <= i < |rows| && rows[i] == m;
          assert i !in RowsWith(rows, t.number);
        }
      }
    }
    EmptyOrNot(RowsWith(rows, t.number));
    if ix.Sole(t) && ix.Matches(Number(t.number)) == [] {
      assert t in ix.active;
      var i :| 0 <= i < |ix.active| && ix.active[i] == t;
      Listed(ix, |ix.active|, i);
    }
  }

  // ----- Conflicts

  ghost predicate Reported(tables: seq<SyrveTable>, rows: seq<MoloTable>, c: Conflict) {
    c in IndexOf(tables, rows).Conflicts()
  }

  /** An id is reported exactly when it occurs more than once in the whole catalogue. */
  lemma DuplicateIdReported(tables: seq<SyrveTable>, rows: seq<MoloTable>, id: Uuid)
    ensures Reported(tables, rows, Conflict(DuplicateSyrveId, NoLabel, {}, {id})) <==> |WithId(tables, id)| > 1
  {
    var ix := IndexOf(tables, rows);
    IndexCounts(tables, rows, id, 0);
    IndexMembers(tables, rows, id, 0);
    EmptyOrNot(WithId(tables, id));
    if Reported(tables, rows, Conflict(DuplicateSyrveId, NoLabel, {}, {id})) {
      var k :| k in ix.ids && |ix.ids[k]| > 1 && SyrveIds(ix.ids[k]) == {id};
      IndexMembers(tables, rows, k, 0);
      assert k == id by { assert k in {id}; }
    }
  }

  lemma NumbersReported(ix: Index, n: Label)
    ensures Conflict(DuplicateSyrveNumber, n, MoloIds(ix.Matches(n)), SyrveIds(ix.Holders(n))) in ix.Conflicts() <==>
            |ix.Holders(n)| > 1
    ensures Conflict(DuplicateMoloNumber, n, MoloIds(ix.Matches(n)), SyrveIds(ix.Holders(n))) in ix.Conflicts() <==>
            |ix.Matches(n)| > 1
    ensures Conflict(UnsupportedSyrveNumber, n, {}, SyrveIds(ix.Holders(n))) in ix.Conflicts() <==>
            n in ix.provider && n.Number? && n.n < 0
  {
  }

  /** The ids of a number's active tables and of its rows. */
  ghost function TablesOf(tables: seq<SyrveTable>, n: int): set<Uuid> {
    set t | t in tables && !t.isDeleted && t.number == n :: t.id
  }

  ghost function RowsOf(rows: seq<MoloTable>, n: int): set<Uuid> { set m | m in rows && Carries(m, n) :: m.id }

  /** A number is reported, with all its rows and tables, exactly when more than one active table has it, or more than
      one row carries it; one below zero exactly when an active table has it. */
  lemma NumberReported(tables: seq<SyrveTable>, rows: seq<MoloTable>, n: int)
    ensures Reported(tables, rows, Conflict(DuplicateSyrveNumber, Number(n), RowsOf(rows, n), TablesOf(tables, n))) <==>
            |ActiveWith(tables, n)| > 1
    ensures Reported(tables, rows, Conflict(DuplicateMoloNumber, Number(n), RowsOf(rows, n), TablesOf(tables, n))) <==>
            |RowsWith(rows, n)| > 1
    ensures Reported(tables, rows, Conflict(UnsupportedSyrveNumber, Number(n), {}, TablesOf(tables, n))) <==>
            n < 0 && ActiveWith(tables, n) != {}
  {
    IndexCounts(tables, rows, 0, n);
    IndexMembers(tables, rows, 0, n);
    NumbersReported(IndexOf(tables, rows), Number(n));
  }

  lemma RowsReported(ix: Index, id: Uuid, text: string)
    ensures Conflict(UnsupportedMoloNumber, Name(text), {id}, {}) in ix.Conflicts() <==>
            MoloTable(id, text) in ix.rows && MoloNumber(text).None?
  {
    if Conflict(UnsupportedMoloNumber, Name(text), {id}, {}) in ix.Conflicts() {
      var m :| m in ix.rows && MoloNumber(m.tableNumber).None? && m.tableNumber == text && {m.id} == {id};
      assert m.id == id by { assert m.id in {id}; }
      assert m == MoloTable(id, text);
    }
  }

  lemma NoNumberMeans(m: MoloTable)
    ensures MoloNumber(m.tableNumber).None? <==> forall n :: !Carries(m, n)
  {
    if MoloNumber(m.tableNumber).Some? { CarriesMeans(m, MoloNumber(m.tableNumber).value); }
    forall n ensures Carries(m, n) <==> MoloNumber(m.tableNumber) == Some(n) {
      CarriesMeans(m, n);
    }
  }

  /** A row is reported on its own exactly when it carries no number. */
  lemma UnsupportedRowReported(tables: seq<SyrveTable>, rows: seq<MoloTable>, text: string, id: Uuid)
    ensures Reported(tables, rows, Conflict(UnsupportedMoloNumber, Name(text), {id}, {})) <==>
            MoloTable(id, text) in rows && forall n :: !Carries(MoloTable(id, text), n)
  {
    RowsReported(IndexOf(tables, rows), id, text);
    NoNumberMeans(MoloTable(id, text));
  }

  // ----- Saved links

  /** A pair taken up with the saved links stays exactly when no link uses its row and none of the organization its
      table; dropped, it is reported unless the first link of its row is this very pair. */
  lemma PairStaysExactly(proposals: seq<Proposal>, organization: Uuid, links: seq<SavedLink>, kept: seq<Proposal>,
                         reported: set<Conflict>, p: Proposal)
    requires Sifted(proposals, |proposals|, organization, links, kept, reported) && p in proposals
    ensures p in kept <==>
            forall i :: 0 <= i < |links| ==>
              links[i].molo != p.molo.id && (links[i].organization != organization || links[i].syrve != p.syrve.id)
  {
    assert proposals[..|proposals|] == proposals;
    assert Untouched(p, organization, links) <==>
           forall i :: 0 <= i < |links| ==>
             links[i].molo != p.molo.id && (links[i].organization != organization || links[i].syrve != p.syrve.id);
  }

  /** A dropped pair is reported exactly when the first saved link of its row is another one, or there is none. */
  lemma DroppedPairReported(proposals: seq<Proposal>, organization: Uuid, links: seq<SavedLink>, kept: seq<Proposal>,
                            reported: set<Conflict>, p: Proposal)
    requires Sifted(proposals, |proposals|, organization, links, kept, reported) && p in proposals && p !in kept
    requires forall q :: q in proposals && q.molo.id == p.molo.id && q.syrve.id == p.syrve.id ==> q == p
    ensures Conflict(AlreadyLinked, Name(p.molo.tableNumber), {p.molo.id}, {p.syrve.id}) in reported <==>
            LinkOfRow(links, p.molo.id) != Some(SavedLink(p.molo.id, organization, p.syrve.id))
  {
    assert proposals[..|proposals|] == proposals;
    var c := AlreadyLinkedConflict(p);
    if c in reported {
      var q :| q in proposals && q !in kept && c == AlreadyLinkedConflict(q)
               && LinkOfRow(links, q.molo.id) != Some(SavedLink(q.molo.id, organization, q.syrve.id));
      assert q.molo.id == p.molo.id by { assert q.molo.id in {p.molo.id}; }
      assert q.syrve.id == p.syrve.id by { assert q.syrve.id in {p.syrve.id}; }
    }
  }

  /** The first saved link of a row, or of an organization's table. */
  lemma FirstLinks(links: seq<SavedLink>, row: Uuid, organization: Uuid, id: Uuid)
    ensures LinkOfRow(links, row) == None <==> forall l :: l in links ==> l.molo != row
    ensures LinkOfRow(links, row) != None ==>
              LinkOfRow(links, row).value in links && LinkOfRow(links, row).value.molo == row
    ensures LinkOfProvider(links, organization, id) == None <==>
            forall l :: l in links ==> !(l.organization == organization && l.syrve == id)
    ensures LinkOfProvider(links, organization, id) != None ==>
              var l := LinkOfProvider(links, organization, id).value;
              l in links && l.organization == organization && l.syrve == id
  {
  }
}
