/** Matching the provider's tables to the restaurant's own tables by number, and sorting out the rest. */
module Catalog {
  import opened Basics
  import opened Text

  type Uuid = nat

  const MAX_NUMBER: int := 2_147_483_647

  datatype SyrveTable = SyrveTable(id: Uuid, number: int, isDeleted: bool)

  datatype MoloTable = MoloTable(id: Uuid, tableNumber: string)

  datatype Proposal = Proposal(molo: MoloTable, syrve: SyrveTable)

  datatype Code =
    | DuplicateSyrveId | DuplicateSyrveNumber | DuplicateMoloNumber
    | UnsupportedSyrveNumber | UnsupportedMoloNumber | AlreadyLinked

  datatype Label = NoLabel | Number(n: int) | Name(s: string)

  datatype Conflict = Conflict(code: Code, about: Label, molo: set<Uuid>, syrve: set<Uuid>)

  // ----- Numbers as the restaurant writes them

  /** A table number is plain decimal digits within 32 bits, between spaces. */
  function MoloNumber(value: string): (number: Option<int>)
    ensures number.Some? <==> Trim(value) != [] && Digits(Trim(value)) && NumberOf(Trim(value)) <= MAX_NUMBER
    ensures number.Some? ==> number.value == NumberOf(Trim(value)) && 0 <= number.value <= MAX_NUMBER
  {
    var trimmed := Trim(value);
    if trimmed == [] || !Digits(trimmed) then None
    else if NumberOf(trimmed) <= MAX_NUMBER then Some(NumberOf(trimmed)) else None
  }

  lemma {:induction false} LeadingZero(digits: string)
    requires Digits(digits)
    ensures Digits("0" + digits) && NumberOf("0" + digits) == NumberOf(digits)
  {
    if digits == [] {
      assert "0" + digits == "0" && "0"[..0] == [];
    } else {
      var n := |digits| - 1;
      LeadingZero(digits[..n]);
      assert ("0" + digits)[..n + 1] == "0" + digits[..n];
    }
  }

  /** Leading zeros do not matter: a row written "007" carries the number 7. */
  lemma LeadingZerosDoNotMatter(digits: string)
    requires digits != [] && Digits(digits)
    ensures MoloNumber("0" + digits) == MoloNumber(digits)
  {
    LeadingZero(digits);
  }

  // ----- Grouping

  function KeyOf<T, K>(key: T -> K, value: T): K { key(value) }

  function Group<T, K>(values: seq<T>, key: T -> K): map<K, seq<T>> {
    if values == [] then map[]
    else
      var groups, last := Group(values[..|values| - 1], key), values[|values| - 1];
      var id := KeyOf(key, last);
      groups[id := (if id in groups then groups[id] else []) + [last]]
  }

  lemma GroupStep<T, K>(values: seq<T>, key: T -> K, i: nat)
    requires i < |values|
    ensures var groups, id := Group(values[..i], key), KeyOf(key, values[i]);
            Group(values[..i + 1], key) == groups[id := (if id in groups then groups[id] else []) + [values[i]]]
  {
    assert values[..i + 1][..i] == values[..i];
  }

  method By<T, K(==)>(values: seq<T>, key: T -> K) returns (groups: map<K, seq<T>>)
    ensures groups == Group(values, key)
  {
    groups := map[];
    for i := 0 to |values|
      invariant groups == Group(values[..i], key)
    {
      var id := KeyOf(key, values[i]);
      GroupStep(values, key, i);
      assert [] + [values[i]] == [values[i]];
      if id in groups {
        groups := groups[id := groups[id] + [values[i]]];
      } else {
        groups := groups[id := [values[i]]];
      }
    }
    assert values[..|values|] == values;
  }

  ghost function Places<T(!new), K(!new)>(values: seq<T>, key: T -> K, k: K): set<nat> {
    set i: nat | i < |values| && key(values[i]) == k
  }

  /** A group lists exactly the values with its key, one for each place that holds one. */
  lemma GroupMeaning<T(!new), K(!new)>(values: seq<T>, key: T -> K, k: K)
    ensures k in Group(values, key) <==> Places(values, key, k) != {}
    ensures k in Group(values, key) ==> |Group(values, key)[k]| == |Places(values, key, k)| > 0
    ensures k in Group(values, key) ==> forall v :: v in Group(values, key)[k] <==> (v in values && key(v) == k)
  {
    GroupSize(values, key, k);
    GroupMembers(values, key, k);
    if v :| v in values && key(v) == k { PlacesOf(values, key, v); }
  }

  function Members<T, K(==)>(values: seq<T>, key: T -> K, k: K): seq<T> {
    if k in Group(values, key) then Group(values, key)[k] else []
  }

  lemma {:induction false} GroupMembers<T(!new), K(!new)>(values: seq<T>, key: T -> K, k: K)
    ensures forall v :: v in Members(values, key, k) <==> (v in values && key(v) == k)
  {
    if values != [] {
      var n := |values| - 1;
      GroupMembers(values[..n], key, k);
      GroupStep(values, key, n);
      assert values[..n + 1] == values;
      assert values == values[..n] + [values[n]];
      var added := if key(values[n]) == k then [values[n]] else [];
      assert Members(values, key, k) == Members(values[..n], key, k) + added;
    }
  }

  lemma PlacesStep<T(!new), K(!new)>(values: seq<T>, key: T -> K, k: K)
    requires values != []
    ensures var n := |values| - 1;
            && n !in Places(values[..n], key, k)
            && Places(values, key, k) == Places(values[..n], key, k) + (if key(values[n]) == k then {n} else {})
  {
  }

  lemma {:induction false} GroupSize<T(!new), K(!new)>(values: seq<T>, key: T -> K, k: K)
    ensures |Members(values, key, k)| == |Places(values, key, k)|
    ensures k in Group(values, key) <==> Places(values, key, k) != {}
  {
    if values == [] {
      assert Places(values, key, k) == {};
    } else {
      var n := |values| - 1;
      GroupSize(values[..n], key, k);
      GroupStep(values, key, n);
      assert values[..n + 1] == values;
      PlacesStep(values, key, k);
    }
  }

  /** A group of one belongs to one place. */
  lemma AlonePlace<T(!new), K(!new)>(values: seq<T>, key: T -> K, i: nat, j: nat)
    requires i < |values| && j < |values| && key(values[i]) == key(values[j])
    requires key(values[i]) in Group(values, key) && |Group(values, key)[key(values[i])]| == 1
    ensures i == j
  {
    GroupMeaning(values, key, key(values[i]));
    if i != j {
      SubsetSize({i, j}, Places(values, key, key(values[i])));
    }
  }

  // ----- The preview

  function Active(tables: seq<SyrveTable>): (active: seq<SyrveTable>)
    ensures forall t :: t in active <==> t in tables && !t.isDeleted
  {
    if tables == [] then []
    else
      var rest, last := Active(tables[..|tables| - 1]), tables[|tables| - 1];
      assert tables == tables[..|tables| - 1] + [last];
      if last.isDeleted then rest else rest + [last]
  }

  function Numbered(rows: seq<MoloTable>): (numbered: seq<MoloTable>)
    ensures forall m :: m in numbered <==> m in rows && MoloNumber(m.tableNumber).Some?
  {
    if rows == [] then []
    else
      var rest, last := Numbered(rows[..|rows| - 1]), rows[|rows| - 1];
      assert rows == rows[..|rows| - 1] + [last];
      if MoloNumber(last.tableNumber).Some? then rest + [last] else rest
  }

  function NumberKey(m: MoloTable): Label {
    if MoloNumber(m.tableNumber).Some? then Number(MoloNumber(m.tableNumber).value) else NoLabel
  }

  function IdKey(t: SyrveTable): Uuid { t.id }

  function ProviderKey(t: SyrveTable): Label { Number(t.number) }

  /** The three indexes the matching looks things up in. */
  datatype Index = Index(
    active: seq<SyrveTable>,
    rows: seq<MoloTable>,
    ids: map<Uuid, seq<SyrveTable>>,
    provider: map<Label, seq<SyrveTable>>,
    molo: map<Label, seq<MoloTable>>)
  {
    function Matches(number: Label): seq<MoloTable> { if number in molo then molo[number] else [] }

    function Holders(number: Label): seq<SyrveTable> { if number in provider then provider[number] else [] }

    /** A supported number, an id used once in the whole catalogue, a number used by one active table. */
    predicate Sole(t: SyrveTable) {
      && t.number >= 0
      && t.id in ids && |ids[t.id]| == 1
      && ProviderKey(t) in provider && |provider[ProviderKey(t)]| == 1
    }

    function Proposals(n: nat): (proposals: seq<Proposal>)
      requires n <= |active|
    {
      if n == 0 then []
      else
        var t := active[n - 1];
        Proposals(n - 1)
          + (if Sole(t) && |Matches(ProviderKey(t))| == 1 then [Proposal(Matches(ProviderKey(t))[0], t)] else [])
    }

    function Missing(n: nat): (missing: seq<SyrveTable>)
      requires n <= |active|
    {
      if n == 0 then []
      else
        var t := active[n - 1];
        Missing(n - 1) + (if Sole(t) && Matches(ProviderKey(t)) == [] then [t] else [])
    }

    function Conflicts(): set<Conflict> {
      (set id | id in ids && |ids[id]| > 1 :: Conflict(DuplicateSyrveId, NoLabel, {}, SyrveIds(ids[id])))
      + (set n | n in provider && |provider[n]| > 1 ::
         Conflict(DuplicateSyrveNumber, n, MoloIds(Matches(n)), SyrveIds(provider[n])))
      + (set n | n in provider && n.Number? && n.n < 0 ::
         Conflict(UnsupportedSyrveNumber, n, {}, SyrveIds(provider[n])))
      + (set n | n in molo && |molo[n]| > 1 :: Conflict(DuplicateMoloNumber, n, MoloIds(molo[n]), SyrveIds(Holders(n))))
      + (set m | m in rows && MoloNumber(m.tableNumber).None? ::
         Conflict(UnsupportedMoloNumber, Name(m.tableNumber), {m.id}, {}))
    }
  }

  function SyrveIds(tables: seq<SyrveTable>): set<Uuid> { set t | t in tables :: t.id }

  function MoloIds(rows: seq<MoloTable>): set<Uuid> { set m | m in rows :: m.id }

  function IndexOf(tables: seq<SyrveTable>, rows: seq<MoloTable>): Index {
    Index(Active(tables), rows, Group(tables, IdKey), Group(Active(tables), ProviderKey),
          Group(Numbered(rows), NumberKey))
  }

  /** Row ids are primary keys. */
  ghost predicate DistinctRows(rows: seq<MoloTable>) {
    forall i, j :: 0 <= i < j < |rows| ==> rows[i].id != rows[j].id
  }

  method BuildSyrveCatalogPreview(tables: seq<SyrveTable>, rows: seq<MoloTable>)
    returns (proposals: seq<Proposal>, missing: seq<SyrveTable>, conflicts: set<Conflict>)
    ensures var ix := IndexOf(tables, rows);
            proposals == ix.Proposals(|ix.active|) && missing == ix.Missing(|ix.active|) && conflicts == ix.Conflicts()
  {
    var ids := By(tables, IdKey);
    var provider := By(Active(tables), ProviderKey);
    var molo := By(Numbered(rows), NumberKey);
    var ix := Index(Active(tables), rows, ids, provider, molo);
    conflicts := CollectConflicts(ix);
    proposals, missing := MatchTables(ix);
  }

  method MatchTables(ix: Index) returns (proposals: seq<Proposal>, missing: seq<SyrveTable>)
    ensures proposals == ix.Proposals(|ix.active|) && missing == ix.Missing(|ix.active|)
  {
    proposals, missing := [], [];
    for i := 0 to |ix.active|
      invariant proposals == ix.Proposals(i) && missing == ix.Missing(i)
    {
      var table := ix.active[i];
      if ix.Sole(table) {
        var matches := ix.Matches(ProviderKey(table));
        if |matches| == 0 { missing := missing + [table]; }
        if |matches| == 1 { proposals := proposals + [Proposal(matches[0], table)]; }
      }
    }
  }

  method CollectConflicts(ix: Index) returns (conflicts: set<Conflict>)
    ensures conflicts == ix.Conflicts()
  {
    var byId := IdConflicts(ix);
    var byNumber := ProviderConflicts(ix);
    var byRow := MoloConflicts(ix);
    conflicts := byId + byNumber + byRow
                 + set m | m in ix.rows && MoloNumber(m.tableNumber).None? ::
                   Conflict(UnsupportedMoloNumber, Name(m.tableNumber), {m.id}, {});
  }

  method IdConflicts(ix: Index) returns (conflicts: set<Conflict>)
    ensures conflicts == set id | id in ix.ids && |ix.ids[id]| > 1 ::
              Conflict(DuplicateSyrveId, NoLabel, {}, SyrveIds(ix.ids[id]))
  {
    conflicts := {};
    var todo := ix.ids.Keys;
    while todo != {}
      invariant todo <= ix.ids.Keys
      invariant conflicts == set id | id in ix.ids && id !in todo && |ix.ids[id]| > 1 ::
                  Conflict(DuplicateSyrveId, NoLabel, {}, SyrveIds(ix.ids[id]))
    {
      var id :| id in todo;
      todo := todo - {id};
      if |ix.ids[id]| > 1 { conflicts := conflicts + {Conflict(DuplicateSyrveId, NoLabel, {}, SyrveIds(ix.ids[id]))}; }
    }
  }

  method ProviderConflicts(ix: Index) returns (conflicts: set<Conflict>)
    ensures conflicts ==
            (set n | n in ix.provider && |ix.provider[n]| > 1 ::
             Conflict(DuplicateSyrveNumber, n, MoloIds(ix.Matches(n)), SyrveIds(ix.provider[n])))
            + (set n | n in ix.provider && n.Number? && n.n < 0 ::
               Conflict(UnsupportedSyrveNumber, n, {}, SyrveIds(ix.provider[n])))
  {
    var duplicates: set<Conflict>, unsupported: set<Conflict> := {}, {};
    var todo: set<Label> := ix.provider.Keys;
    while todo != {}
      invariant todo <= ix.provider.Keys
      invariant duplicates == set n | n in ix.provider && n !in todo && |ix.provider[n]| > 1 ::
                  Conflict(DuplicateSyrveNumber, n, MoloIds(ix.Matches(n)), SyrveIds(ix.provider[n]))
      invariant unsupported == set n | n in ix.provider && n !in todo && n.Number? && n.n < 0 ::
                  Conflict(UnsupportedSyrveNumber, n, {}, SyrveIds(ix.provider[n]))
    {
      var n :| n in todo;
      todo := todo - {n};
      if |ix.provider[n]| > 1 {
        duplicates := duplicates
          + {Conflict(DuplicateSyrveNumber, n, MoloIds(ix.Matches(n)), SyrveIds(ix.provider[n]))};
      }
      if n.Number? && n.n < 0 {
        unsupported := unsupported + {Conflict(UnsupportedSyrveNumber, n, {}, SyrveIds(ix.provider[n]))};
      }
    }
    conflicts := duplicates + unsupported;
  }

  method MoloConflicts(ix: Index) returns (conflicts: set<Conflict>)
    ensures conflicts == set n | n in ix.molo && |ix.molo[n]| > 1 ::
              Conflict(DuplicateMoloNumber, n, MoloIds(ix.molo[n]), SyrveIds(ix.Holders(n)))
  {
    conflicts := {};
    var todo: set<Label> := ix.molo.Keys;
    while todo != {}
      invariant todo <= ix.molo.Keys
      invariant conflicts == set n | n in ix.molo && n !in todo && |ix.molo[n]| > 1 ::
                  Conflict(DuplicateMoloNumber, n, MoloIds(ix.molo[n]), SyrveIds(ix.Holders(n)))
    {
      var n :| n in todo;
      todo := todo - {n};
      if |ix.molo[n]| > 1 {
        conflicts := conflicts + {Conflict(DuplicateMoloNumber, n, MoloIds(ix.molo[n]), SyrveIds(ix.Holders(n)))};
      }
    }
  }

  // ----- What the preview promises

  /** Where a proposal or a missing table came from. */
  lemma {:induction false} ProposalSource(ix: Index, n: nat, p: Proposal) returns (i: nat)
    requires n <= |ix.active| && p in ix.Proposals(n)
    ensures i < n && p.syrve == ix.active[i] && ix.Sole(p.syrve)
    ensures |ix.Matches(ProviderKey(p.syrve))| == 1 && p.molo == ix.Matches(ProviderKey(p.syrve))[0]
  {
    if p in ix.Proposals(n - 1) { i := ProposalSource(ix, n - 1, p); } else { i := n - 1; }
  }

  lemma {:induction false} MissingSource(ix: Index, n: nat, t: SyrveTable)
    requires n <= |ix.active| && t in ix.Missing(n)
    ensures t in ix.active && ix.Sole(t) && ix.Matches(ProviderKey(t)) == []
  {
    if t in ix.Missing(n - 1) { MissingSource(ix, n - 1, t); }
  }

  /** A table judged alone is listed by how many rows carry its number. */
  lemma {:induction false} Listed(ix: Index, n: nat, i: nat)
    requires i < n <= |ix.active| && ix.Sole(ix.active[i])
    ensures ix.Matches(ProviderKey(ix.active[i])) == [] ==> ix.active[i] in ix.Missing(n)
    ensures |ix.Matches(ProviderKey(ix.active[i]))| == 1 ==>
              Proposal(ix.Matches(ProviderKey(ix.active[i]))[0], ix.active[i]) in ix.Proposals(n)
  {
    if i < n - 1 { Listed(ix, n - 1, i); }
  }

  /** Matching is number-preserving: a proposal pairs an active table with a row of the same number. */
  lemma ProposalsPreserveNumbers(tables: seq<SyrveTable>, rows: seq<MoloTable>, p: Proposal)
    requires p in IndexOf(tables, rows).Proposals(|IndexOf(tables, rows).active|)
    ensures p.syrve in tables && !p.syrve.isDeleted && p.molo in rows
    ensures MoloNumber(p.molo.tableNumber) == Some(p.syrve.number)
  {
    var ix := IndexOf(tables, rows);
    var _ := ProposalSource(ix, |ix.active|, p);
    GroupMeaning(Numbered(rows), NumberKey, ProviderKey(p.syrve));
    assert p.molo in ix.molo[ProviderKey(p.syrve)];
  }

  /** Injective on both sides: no two proposals share a provider table, a row or a number. */
  lemma {:induction false} ProposalsInjective(tables: seq<SyrveTable>, rows: seq<MoloTable>, n: nat)
    requires DistinctRows(rows) && n <= |IndexOf(tables, rows).active|
    ensures InjectivePairs(IndexOf(tables, rows).Proposals(n))
  {
    var ix := IndexOf(tables, rows);
    if n > 0 {
      ProposalsInjective(tables, rows, n - 1);
      var t := ix.active[n - 1];
      if ix.Sole(t) && |ix.Matches(ProviderKey(t))| == 1 {
        var before := ix.Proposals(n - 1);
        forall k | 0 <= k < |before|
          ensures before[k].syrve.id != t.id && before[k].molo.id != ix.Matches(ProviderKey(t))[0].id
        {
          var i := ProposalSource(ix, n - 1, before[k]);
          SoleTablesDiffer(tables, rows, i, n - 1);
        }
      }
    }
  }

  lemma SoleTablesDiffer(tables: seq<SyrveTable>, rows: seq<MoloTable>, i: nat, j: nat)
    requires DistinctRows(rows) && i < j < |Active(tables)|
    requires var ix := IndexOf(tables, rows);
             && ix.Sole(ix.active[i]) && |ix.Matches(ProviderKey(ix.active[i]))| == 1
             && ix.Sole(ix.active[j]) && |ix.Matches(ProviderKey(ix.active[j]))| == 1
    ensures var ix := IndexOf(tables, rows);
            && ix.active[i].id != ix.active[j].id
            && ix.Matches(ProviderKey(ix.active[i]))[0].id != ix.Matches(ProviderKey(ix.active[j]))[0].id
  {
    var ix := IndexOf(tables, rows);
    var a, b := ix.active[i], ix.active[j];
    assert a in ix.active && b in ix.active;
    if ProviderKey(a) == ProviderKey(b) {
      AlonePlace(ix.active, ProviderKey, i, j);
    }
    if a.id == b.id { SameIdSameTable(tables, a, b); }
    DifferentNumbersDifferentRows(rows, ProviderKey(a), ProviderKey(b), ix.Matches(ProviderKey(a))[0],
                                  ix.Matches(ProviderKey(b))[0]);
  }

  lemma SameIdSameTable(tables: seq<SyrveTable>, a: SyrveTable, b: SyrveTable)
    requires a in tables && b in tables && a.id == b.id
    requires a.id in Group(tables, IdKey) && |Group(tables, IdKey)[a.id]| == 1
    ensures a == b
  {
    var i :| 0 <= i < |tables| && tables[i] == a;
    var j :| 0 <= j < |tables| && tables[j] == b;
    AlonePlace(tables, IdKey, i, j);
  }

  lemma DifferentNumbersDifferentRows(rows: seq<MoloTable>, a: Label, b: Label, x: MoloTable, y: MoloTable)
    requires DistinctRows(rows) && a != b
    requires x in Members(Numbered(rows), NumberKey, a) && y in Members(Numbered(rows), NumberKey, b)
    ensures x.id != y.id
  {
    GroupMembers(Numbered(rows), NumberKey, a);
    GroupMembers(Numbered(rows), NumberKey, b);
    var i :| 0 <= i < |rows| && rows[i] == x;
    var j :| 0 <= j < |rows| && rows[j] == y;
    assert i != j;
  }

  ghost predicate IsProposed(ix: Index, id: Uuid) {
    exists p :: p in ix.Proposals(|ix.active|) && p.syrve.id == id
  }

  ghost predicate IsMissing(ix: Index, id: Uuid) {
    exists t :: t in ix.Missing(|ix.active|) && t.id == id
  }

  ghost predicate IsContested(ix: Index, id: Uuid) {
    exists c :: c in ix.Conflicts() && id in c.syrve
  }

  lemma ListedTablesAreActive(tables: seq<SyrveTable>, rows: seq<MoloTable>, id: Uuid) returns (t: SyrveTable)
    requires IsProposed(IndexOf(tables, rows), id) || IsMissing(IndexOf(tables, rows), id)
    ensures t in Active(tables) && t.id == id && IndexOf(tables, rows).Sole(t)
    ensures IsProposed(IndexOf(tables, rows), id) ==> |IndexOf(tables, rows).Matches(ProviderKey(t))| == 1
    ensures IsMissing(IndexOf(tables, rows), id) ==> |IndexOf(tables, rows).Matches(ProviderKey(t))| == 0
  {
    var ix := IndexOf(tables, rows);
    var proposed, absent;
    if IsProposed(ix, id) {
      var p :| p in ix.Proposals(|ix.active|) && p.syrve.id == id;
      var i := ProposalSource(ix, |ix.active|, p);
      assert p.syrve in Active(tables);
      proposed, t := p.syrve, p.syrve;
    }
    if IsMissing(ix, id) {
      absent :| absent in ix.Missing(|ix.active|) && absent.id == id;
      MissingSource(ix, |ix.active|, absent);
      if IsProposed(ix, id) { SameIdSameTable(tables, proposed, absent); }
      t := absent;
    }
  }

  /** A table that can be judged alone is proposed, missing or contested by how many rows match it. */
  lemma SoleClassification(tables: seq<SyrveTable>, rows: seq<MoloTable>, t: SyrveTable)
    requires t in tables && !t.isDeleted && IndexOf(tables, rows).Sole(t)
    ensures var ix := IndexOf(tables, rows); var m := |ix.Matches(ProviderKey(t))|;
            && (IsProposed(ix, t.id) <==> m == 1)
            && (IsMissing(ix, t.id) <==> m == 0)
            && (IsContested(ix, t.id) <==> m > 1)
  {
    var ix := IndexOf(tables, rows);
    assert t in ix.active;
    var i :| 0 <= i < |ix.active| && ix.active[i] == t;
    Listed(ix, |ix.active|, i);
    if IsProposed(ix, t.id) || IsMissing(ix, t.id) {
      var other := ListedTablesAreActive(tables, rows, t.id);
      SameIdSameTable(tables, other, t);
    }
    if |ix.Matches(ProviderKey(t))| > 1 {
      SoleContested(tables, rows, t);
    } else {
      SoleUncontested(tables, rows, t);
    }
  }

  lemma SoleContested(tables: seq<SyrveTable>, rows: seq<MoloTable>, t: SyrveTable)
    requires t in tables && !t.isDeleted && |IndexOf(tables, rows).Matches(ProviderKey(t))| > 1
    ensures IsContested(IndexOf(tables, rows), t.id)
  {
    var ix, key := IndexOf(tables, rows), ProviderKey(t);
    assert t in ix.active;
    GroupMeaning(ix.active, ProviderKey, key);
    PlacesOf(ix.active, ProviderKey, t);
    var c := Conflict(DuplicateMoloNumber, key, MoloIds(ix.molo[key]), SyrveIds(ix.Holders(key)));
    assert c in ix.Conflicts() && t.id in c.syrve;
  }

  lemma SoleUncontested(tables: seq<SyrveTable>, rows: seq<MoloTable>, t: SyrveTable)
    requires t in tables && !t.isDeleted && IndexOf(tables, rows).Sole(t)
    requires |IndexOf(tables, rows).Matches(ProviderKey(t))| <= 1
    ensures !IsContested(IndexOf(tables, rows), t.id)
  {
    var ix := IndexOf(tables, rows);
    forall other | other in tables && other.id == t.id ensures other == t {
      SameIdSameTable(tables, other, t);
    }
    forall id | id in ix.ids && |ix.ids[id]| > 1 ensures t.id !in SyrveIds(ix.ids[id]) {
      GroupMeaning(tables, IdKey, id);
    }
    forall n | n in ix.provider && t.id in SyrveIds(ix.provider[n]) ensures n == ProviderKey(t) {
      GroupMeaning(ix.active, ProviderKey, n);
    }
  }

  lemma UnsoleClassification(tables: seq<SyrveTable>, rows: seq<MoloTable>, t: SyrveTable)
    requires t in tables && !t.isDeleted && !IndexOf(tables, rows).Sole(t)
    ensures var ix := IndexOf(tables, rows); IsContested(ix, t.id) && !IsProposed(ix, t.id) && !IsMissing(ix, t.id)
  {
    var ix := IndexOf(tables, rows);
    UnsoleContested(tables, rows, t);
    if IsProposed(ix, t.id) || IsMissing(ix, t.id) {
      var other := ListedTablesAreActive(tables, rows, t.id);
      SameIdSameTable(tables, other, t);
      assert false;
    }
  }

  lemma UnsoleContested(tables: seq<SyrveTable>, rows: seq<MoloTable>, t: SyrveTable)
    requires t in tables && !t.isDeleted && !IndexOf(tables, rows).Sole(t)
    ensures IsContested(IndexOf(tables, rows), t.id)
  {
    var ix, key := IndexOf(tables, rows), ProviderKey(t);
    assert t in ix.active;
    GroupMeaning(tables, IdKey, t.id);
    GroupMeaning(ix.active, ProviderKey, key);
    PlacesOf(tables, IdKey, t);
    PlacesOf(ix.active, ProviderKey, t);
    var c :=
      if |ix.ids[t.id]| != 1 then Conflict(DuplicateSyrveId, NoLabel, {}, SyrveIds(ix.ids[t.id]))
      else if t.number < 0 then Conflict(UnsupportedSyrveNumber, key, {}, SyrveIds(ix.provider[key]))
      else Conflict(DuplicateSyrveNumber, key, MoloIds(ix.Matches(key)), SyrveIds(ix.provider[key]));
    assert c in ix.Conflicts() && t.id in c.syrve;
  }

  lemma PlacesOf<T(!new), K(!new)>(values: seq<T>, key: T -> K, v: T)
    requires v in values
    ensures Places(values, key, key(v)) != {}
  {
    var i :| 0 <= i < |values| && values[i] == v;
    assert i in Places(values, key, key(v));
  }

  /** Complete and exclusive: every active provider table is proposed, missing or contested, exactly one. */
  lemma ClassificationIsExact(tables: seq<SyrveTable>, rows: seq<MoloTable>, t: SyrveTable)
    requires t in tables && !t.isDeleted
    ensures var ix := IndexOf(tables, rows);
            && (IsProposed(ix, t.id) || IsMissing(ix, t.id) || IsContested(ix, t.id))
            && !(IsProposed(ix, t.id) && IsMissing(ix, t.id))
            && !(IsProposed(ix, t.id) && IsContested(ix, t.id))
            && !(IsMissing(ix, t.id) && IsContested(ix, t.id))
  {
    if IndexOf(tables, rows).Sole(t) {
      SoleClassification(tables, rows, t);
    } else {
      UnsoleClassification(tables, rows, t);
    }
  }

  // ----- Against the links already saved

  datatype SavedLink = SavedLink(molo: Uuid, organization: Uuid, syrve: Uuid)

  function FirstLink(links: seq<SavedLink>, matches: SavedLink -> bool): (found: Option<SavedLink>)
    ensures found.Some? ==> found.value in links && matches(found.value)
    ensures found.None? ==> forall l :: l in links ==> !matches(l)
  {
    if links == [] then None else if matches(links[0]) then Some(links[0]) else FirstLink(links[1..], matches)
  }

  function LinkOfRow(links: seq<SavedLink>, row: Uuid): Option<SavedLink> {
    FirstLink(links, (l: SavedLink) => l.molo == row)
  }

  function LinkOfProvider(links: seq<SavedLink>, organization: Uuid, id: Uuid): Option<SavedLink> {
    FirstLink(links, (l: SavedLink) => l.organization == organization && l.syrve == id)
  }

  /** No saved link uses the row, and none of this organization uses the provider's table. */
  ghost predicate Untouched(p: Proposal, organization: Uuid, links: seq<SavedLink>) {
    forall l :: l in links ==> l.molo != p.molo.id && !(l.organization == organization && l.syrve == p.syrve.id)
  }

  ghost predicate InjectivePairs(pairs: seq<Proposal>) {
    forall i, j :: 0 <= i < j < |pairs| ==>
      pairs[i].syrve.id != pairs[j].syrve.id && pairs[i].molo.id != pairs[j].molo.id
  }

  function AlreadyLinkedConflict(p: Proposal): Conflict {
    Conflict(AlreadyLinked, Name(p.molo.tableNumber), {p.molo.id}, {p.syrve.id})
  }

  /** What the filter has done with the first n pairs. */
  ghost predicate Sifted(proposals: seq<Proposal>, n: nat, organization: Uuid, links: seq<SavedLink>,
                         kept: seq<Proposal>, reported: set<Conflict>)
    requires n <= |proposals|
  {
    && (forall p :: p in kept <==> (p in proposals[..n] && Untouched(p, organization, links)))
    && (InjectivePairs(proposals) ==> InjectivePairs(kept))
    && (forall p :: p in proposals[..n] && p !in kept ==>
          || LinkOfRow(links, p.molo.id) == Some(SavedLink(p.molo.id, organization, p.syrve.id))
          || AlreadyLinkedConflict(p) in reported)
    && (forall c :: c in reported ==>
          exists p :: p in proposals[..n] && p !in kept && c == AlreadyLinkedConflict(p)
                      && LinkOfRow(links, p.molo.id) != Some(SavedLink(p.molo.id, organization, p.syrve.id)))
  }

  /** Keeps only pairs no saved link touches, so what remains stays injective together with the links of
      this organization; a dropped pair is either already confirmed or reported. */
  method BuildSyrveMappingPreview(proposals: seq<Proposal>, organization: Uuid, links: seq<SavedLink>)
    returns (kept: seq<Proposal>, reported: set<Conflict>)
    ensures Sifted(proposals, |proposals|, organization, links, kept, reported)
  {
    kept, reported := [], {};
    for i := 0 to |proposals|
      invariant Sifted(proposals, i, organization, links, kept, reported)
    {
      var pair := proposals[i];
      var moloLink := LinkOfRow(links, pair.molo.id);
      var providerLink := LinkOfProvider(links, organization, pair.syrve.id);
      if moloLink.None? && providerLink.None? {
        SiftedKeeps(proposals, i, organization, links, kept, reported);
        kept := kept + [pair];
      } else if moloLink.None? || moloLink.value.organization != organization || moloLink.value.syrve != pair.syrve.id {
        SiftedDrops(proposals, i, organization, links, kept, reported, reported + {AlreadyLinkedConflict(pair)});
        reported := reported + {AlreadyLinkedConflict(pair)};
      } else {
        assert moloLink.value == SavedLink(pair.molo.id, organization, pair.syrve.id);
        SiftedDrops(proposals, i, organization, links, kept, reported, reported);
      }
    }
  }

  lemma SiftedKeeps(proposals: seq<Proposal>, n: nat, organization: Uuid, links: seq<SavedLink>,
                    kept: seq<Proposal>, reported: set<Conflict>)
    requires n < |proposals| && Sifted(proposals, n, organization, links, kept, reported)
    requires Untouched(proposals[n], organization, links)
    ensures Sifted(proposals, n + 1, organization, links, kept + [proposals[n]], reported)
  {
  }

  lemma SiftedDrops(proposals: seq<Proposal>, n: nat, organization: Uuid, links: seq<SavedLink>,
                    kept: seq<Proposal>, reported: set<Conflict>, after: set<Conflict>)
    requires n < |proposals| && Sifted(proposals, n, organization, links, kept, reported)
    requires !Untouched(proposals[n], organization, links)
    requires var row := LinkOfRow(links, proposals[n].molo.id);
             var own := SavedLink(proposals[n].molo.id, organization, proposals[n].syrve.id);
             after == if row == Some(own) then reported else reported + {AlreadyLinkedConflict(proposals[n])}
    ensures Sifted(proposals, n + 1, organization, links, kept, after)
  {
  }

  /** The pairs offered for confirmation, together with the links already saved, still pair each table once. */
  lemma OfferedPairsJoinSavedLinks(tables: seq<SyrveTable>, rows: seq<MoloTable>, organization: Uuid,
                                   links: seq<SavedLink>, kept: seq<Proposal>, reported: set<Conflict>)
    requires DistinctRows(rows)
    requires var ix := IndexOf(tables, rows);
             Sifted(ix.Proposals(|ix.active|), |ix.Proposals(|ix.active|)|, organization, links, kept, reported)
    ensures InjectivePairs(kept)
    ensures forall p :: p in kept ==> MoloNumber(p.molo.tableNumber) == Some(p.syrve.number)
    ensures forall p, l :: p in kept && l in links ==>
              l.molo != p.molo.id && (l.organization == organization ==> l.syrve != p.syrve.id)
  {
    var ix := IndexOf(tables, rows);
    ProposalsInjective(tables, rows, |ix.active|);
    assert ix.Proposals(|ix.active|)[..|ix.Proposals(|ix.active|)|] == ix.Proposals(|ix.active|);
    forall p | p in kept ensures MoloNumber(p.molo.tableNumber) == Some(p.syrve.number) {
      ProposalsPreserveNumbers(tables, rows, p);
    }
    forall p, l | p in kept && l in links
      ensures l.molo != p.molo.id && (l.organization == organization ==> l.syrve != p.syrve.id)
    {
      assert Untouched(p, organization, links);
    }
  }
}
