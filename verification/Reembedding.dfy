/**
 Re-embedding a namespace without concurrent writers: a cursor walks through the vectors of
 other models page by page until a limit is reached.
 */
module Reembedding {
  import opened Wrappers
  import opened Ordering
  import opened Rows
  import opened Planning
  import opened SqliteStore
  import opened Concurrency
  import opened Saving

  const REEMBED_PAGE: nat := 100

  /**
   What one call works with. `textOf` is the text a vector would be derived from, `embed` the
   embedding model, `clock` the time at which a concept is saved.
   */
  datatype Settings = Settings(
    namespace: string,
    overwrite: bool,
    limit: nat,
    model: string,
    textOf: Row -> Option<(string, Representation)>,
    embed: string -> Embedding,
    clock: string -> int)

  datatype SkipReason = IsAuthored | NoText

  datatype ReembedOutcome = ReembedOutcome(reembedded: seq<string>, skipped: seq<(string, SkipReason)>, remaining: nat)

  /** A vector that the configured model did not make. */
  predicate IsForeign(st: Settings, row: Row) {
    row.namespace == st.namespace && row.embedding.Some? && row.embeddingModel != Some(st.model)
  }

  function Foreign(st: Settings, concepts: map<string, Row>): set<string> {
    set id | id in concepts && IsForeign(st, concepts[id])
  }

  // ------------------------------------------------------- ordered pages

  ghost predicate Ascending(ids: seq<string>) {
    forall i, j :: 0 <= i < j < |ids| ==> StringLess(ids[i], ids[j])
  }

  ghost predicate ListsSet(ids: seq<string>, s: set<string>) {
    forall x :: x in ids <==> x in s
  }

  function Take(ids: seq<string>, n: nat): seq<string> {
    if |ids| <= n then ids else ids[..n]
  }

  lemma AscendingFacts(ids: seq<string>)
    requires Ascending(ids)
    ensures NoRepeats(ids) && Sorted(ids, StringLess)
  {
    forall i, j | 0 <= i < j < |ids| ensures ids[i] != ids[j] && !StringLess(ids[j], ids[i]) {
      StringLessTotal(ids[i], ids[j]);
      assert StringLess(ids[i], ids[j]);
    }
  }

  lemma StringsAreUntied(ids: seq<string>)
    ensures Untied(multiset(ids), StringLess)
  {
    forall x, y | x in multiset(ids) && y in multiset(ids) && x != y
      ensures StringLess(x, y) || StringLess(y, x)
    {
      StringLessTotal(x, y);
    }
  }

  /** A set has one ascending list. */
  lemma AscendingUnique(a: seq<string>, b: seq<string>, s: set<string>)
    requires Ascending(a) && Ascending(b) && ListsSet(a, s) && ListsSet(b, s)
    ensures a == b
  {
    AscendingFacts(a);
    AscendingFacts(b);
    forall x ensures multiset(a)[x] == multiset(b)[x] {
      ListedOnce(a, x);
      ListedOnce(b, x);
    }
    StringsAreUntied(a);
    SortedUnique(a, b, StringLess);
  }

  lemma StringLessIsStrictWeakOrder()
    ensures StrictWeakOrder(StringLess)
  {
    forall x: string ensures !StringLess(x, x) {
      StringLessTotal(x, x);
    }
    forall x: string, y: string, z: string | StringLess(x, y) && StringLess(y, z) ensures StringLess(x, z) {
      StringLessTransitive(x, y, z);
    }
    forall x: string, y: string, z: string | StringLess(x, z) ensures StringLess(x, y) || StringLess(y, z) {
      StringLessTotal(x, y);
      if StringLess(y, x) {
        StringLessTransitive(y, x, z);
      }
    }
  }

  lemma SortedListAscends(list: seq<string>, s: set<string>)
    requires NoRepeats(list) && ListsSet(list, s)
    ensures Ascending(Sort(list, StringLess)) && ListsSet(Sort(list, StringLess), s)
  {
    var ids := Sort(list, StringLess);
    StringLessIsStrictWeakOrder();
    SortSorts(list, StringLess);
    SortKeepsElements(list, StringLess);
    assert forall x :: x in ids <==> x in multiset(ids);
    assert forall x :: x in list <==> x in multiset(list);
    forall i, j | 0 <= i < j < |ids| ensures StringLess(ids[i], ids[j]) {
      StringLessTotal(ids[i], ids[j]);
      if ids[i] == ids[j] {
        RepeatedElement(ids, i, j);
        ListedOnce(list, ids[i]);
      }
    }
  }

  /** The ids of a set in ascending order, as `ORDER BY id` yields them. */
  method OrderById(s: set<string>) returns (ids: seq<string>)
    ensures Ascending(ids) && ListsSet(ids, s)
  {
    var rest := s;
    var list: seq<string> := [];
    while rest != {}
      invariant rest <= s && NoRepeats(list)
      invariant forall x :: x in list <==> x in s && x !in rest
      decreases rest
    {
      var x :| x in rest;
      list := list + [x];
      rest := rest - {x};
    }
    SortedListAscends(list, s);
    ids := Sort(list, StringLess);
  }

  /** Behind the cursor; without one the query compares with the empty string. */
  predicate Behind(x: string, cursor: Option<string>) {
    StringLess(cursor.GetOr(""), x)
  }

  function ForeignBehind(st: Settings, concepts: map<string, Row>, cursor: Option<string>): set<string> {
    set id | id in Foreign(st, concepts) && Behind(id, cursor)
  }

  method FindForeignVectors(store: SqliteAdapter, st: Settings, cursor: Option<string>, limit: nat)
    returns (ids: seq<string>, ghost all: seq<string>)
    ensures Ascending(all) && ListsSet(all, ForeignBehind(st, store.concepts, cursor)) && ids == Take(all, limit)
  {
    var sorted := OrderById(ForeignBehind(st, store.concepts, cursor));
    all := sorted;
    ids := Take(sorted, limit);
  }

  // --------------------------------------------------------- one concept

  /** Whether the vector may be derived anew. */
  predicate Eligible(st: Settings, row: Row) {
    st.textOf(row).Some? && (!Authored(row, Vector) || st.overwrite)
  }

  function ReasonFor(st: Settings, row: Row): SkipReason {
    if st.textOf(row).None? then NoText else IsAuthored
  }

  function SaveItemFor(st: Settings, row: Row): Item
    requires st.textOf(row).Some?
  {
    var source := st.textOf(row).value;
    SaveItem(ReembedEntry(st.namespace, row.version, st.embed(source.0), source.1, st.model), row.id, None)
  }

  /** The row with a vector of the configured model; everything else but version and time stays. */
  function RowAfter(st: Settings, row: Row): Row {
    if st.textOf(row).None? then row
    else
      var source := st.textOf(row).value;
      row.(version := row.version + 1, updatedAt := st.clock(row.id), tags := Dedupe(row.tags),
           embedding := Some(st.embed(source.0)), embeddingModel := Some(st.model),
           provenance := row.provenance[Vector := Provenance(Derived, Some(source.1), Some(st.model), None, None)])
  }

  predicate FewTags(row: Row) {
    |Dedupe(row.tags)| <= MAX_TAGS
  }

  lemma SavePlan(st: Settings, row: Row)
    requires row.namespace == st.namespace && st.textOf(row).Some?
    ensures var item := SaveItemFor(st, row);
      var plan := PlanOf(item.entry, row.id, Some(row), None, st.clock(row.id), st.model);
      if FewTags(row) then plan.Ok? && plan.value.row == RowAfter(st, row) else plan == Err(TooManyTags)
  {
    var item := SaveItemFor(st, row);
    forall rep ensures ProvenanceOf(Supplied(item.entry, Some(row), SUPPLY_ORDER), rep)
      == ProvenanceOf(RowAfter(st, row).provenance, rep)
    {
      SuppliedEntry(item.entry, Some(row), rep);
    }
    SameProvenance(Supplied(item.entry, Some(row), SUPPLY_ORDER), RowAfter(st, row).provenance);
    assert row.tags + [] == row.tags;
  }

  /** The inner save of one concept. */
  method SaveVector(store: SqliteAdapter, st: Settings, row: Row) returns (ok: bool)
    requires store.Valid() && row.id in store.concepts && store.concepts[row.id] == row
    requires row.namespace == st.namespace && st.textOf(row).Some?
    modifies store
    ensures store.Valid() && ok == FewTags(row)
    ensures store.concepts == if ok then old(store.concepts)[row.id := RowAfter(st, row)] else old(store.concepts)
  {
    SavePlan(st, row);
    var item := SaveItemFor(st, row);
    OneItem(store.concepts, item, st.clock(row.id), st.model);
    var saved := SaveBatch(store, [item], st.clock(row.id), st.model);
    ok := saved.Ok?;
    assert PlanSave([item][0], old(store.concepts), st.clock(row.id), st.model)
      == PlanOf(item.entry, row.id, Some(row), None, st.clock(row.id), st.model);
  }

  lemma OneItem(concepts: map<string, Row>, item: Item, now: int, model: string)
    ensures AtomicAll(concepts, [item], now, model)
      == match PlanItem(item, Find(concepts, ItemId(item)), now, model)
         case Submits(_, row) => concepts[ItemId(item) := row]
         case _ => concepts
  {
    assert [item][..0] == [];
    assert AtomicAll(concepts, [], now, model) == concepts;
  }

  // ------------------------------------------------------------- the loop

  /** The store after the concepts in `done` were saved. */
  function TableAfter(st: Settings, before: map<string, Row>, done: seq<string>): map<string, Row> {
    map id | id in before :: if id in done then RowAfter(st, before[id]) else before[id]
  }

  /** Of the ids walked through, the eligible ones, in order. */
  function Chosen(st: Settings, before: map<string, Row>, walked: seq<string>): seq<string> {
    if walked == [] then []
    else
      var id := walked[|walked| - 1];
      Chosen(st, before, walked[..|walked| - 1])
      + if id in before && Eligible(st, before[id]) then [id] else []
  }

  /** And the others, with the reason. */
  function Passed(st: Settings, before: map<string, Row>, walked: seq<string>): seq<(string, SkipReason)> {
    if walked == [] then []
    else
      var id := walked[|walked| - 1];
      Passed(st, before, walked[..|walked| - 1])
      + if id in before && !Eligible(st, before[id]) then [(id, ReasonFor(st, before[id]))] else []
  }

  lemma {:induction false} ChosenMembers(st: Settings, before: map<string, Row>, walked: seq<string>, id: string)
    ensures id in Chosen(st, before, walked) <==> id in walked && id in before && Eligible(st, before[id])
  {
    if walked != [] {
      ChosenMembers(st, before, walked[..|walked| - 1], id);
      assert walked == walked[..|walked| - 1] + [walked[|walked| - 1]];
    }
  }

  lemma {:induction false} PassedMembers(st: Settings, before: map<string, Row>, walked: seq<string>,
                                         p: (string, SkipReason))
    ensures p in Passed(st, before, walked)
      <==> (p.0 in walked && p.0 in before && !Eligible(st, before[p.0]) && p.1 == ReasonFor(st, before[p.0]))
  {
    if walked != [] {
      PassedMembers(st, before, walked[..|walked| - 1], p);
      assert walked == walked[..|walked| - 1] + [walked[|walked| - 1]];
    }
  }

  lemma {:induction false} WalkedCounts(st: Settings, before: map<string, Row>, walked: seq<string>)
    requires NoRepeats(walked) && forall id :: id in walked ==> id in before
    ensures NoRepeats(Chosen(st, before, walked)) && NoRepeats(Passed(st, before, walked))
    ensures |Chosen(st, before, walked)| + |Passed(st, before, walked)| == |walked|
  {
    if walked != [] {
      var n := |walked| - 1;
      var init := walked[..n];
      WalkedCounts(st, before, init);
      assert walked[n] in walked && walked[n] !in init;
      ChosenMembers(st, before, init, walked[n]);
      PassedMembers(st, before, init, (walked[n], ReasonFor(st, before[walked[n]])));
    }
  }

  lemma {:induction false} ChosenAppend(st: Settings, before: map<string, Row>, a: seq<string>, b: seq<string>)
    ensures Chosen(st, before, a + b) == Chosen(st, before, a) + Chosen(st, before, b)
    ensures Passed(st, before, a + b) == Passed(st, before, a) + Passed(st, before, b)
  {
    if b == [] {
      assert a + b == a;
    } else {
      ChosenAppend(st, before, a, b[..|b| - 1]);
      assert (a + b)[..|a + b| - 1] == a + b[..|b| - 1];
    }
  }

  /** The rows as they were read. */
  ghost predicate RowsFor(concepts: map<string, Row>, rows: seq<Row>, ids: seq<string>) {
    |rows| == |ids| && forall i :: 0 <= i < |ids| ==> Find(concepts, ids[i]) == Some(rows[i])
  }

  /** Look at the ids of a page until the work fills the room that is left. */
  method CheckPage(store: SqliteAdapter, st: Settings, ids: seq<string>, room: nat)
    returns (work: seq<Row>, ghost chosen: seq<string>, skipped: seq<(string, SkipReason)>, walked: nat)
    requires room > 0 && forall id :: id in ids ==> id in store.concepts
    ensures walked <= |ids| && (ids != [] ==> walked > 0) && |work| <= room
    ensures walked == |ids| || |work| == room
    ensures chosen == Chosen(st, store.concepts, ids[..walked])
    ensures RowsFor(store.concepts, work, chosen)
    ensures skipped == Passed(st, store.concepts, ids[..walked])
  {
    work, chosen, skipped, walked := [], [], [], 0;
    while walked < |ids| && |work| < room
      invariant walked <= |ids| && |work| <= room && (walked == 0 ==> work == [])
      invariant chosen == Chosen(st, store.concepts, ids[..walked]) && RowsFor(store.concepts, work, chosen)
      invariant skipped == Passed(st, store.concepts, ids[..walked])
    {
      var id := ids[walked];
      assert id in ids;
      assert ids[..walked + 1] == ids[..walked] + [id];
      assert ids[..walked + 1][..walked] == ids[..walked];
      var row := store.concepts[id];
      if st.textOf(row).None? {
        skipped := skipped + [(id, NoText)];
      } else if Authored(row, Vector) && !st.overwrite {
        skipped := skipped + [(id, IsAuthored)];
      } else {
        work := work + [row];
        chosen := chosen + [id];
      }
      walked := walked + 1;
    }
  }

  /** The rows that may be saved: foreign and eligible. */
  ghost predicate Workable(st: Settings, before: map<string, Row>, done: seq<string>) {
    forall id :: id in done ==> id in before && IsForeign(st, before[id]) && Eligible(st, before[id])
  }

  /** Every row's stored tags are few enough for a save. */
  ghost predicate AllFew(rows: seq<Row>) {
    forall i :: 0 <= i < |rows| ==> FewTags(rows[i])
  }

  /** Save the vectors of one page; stops at a row whose stored tags no save accepts. */
  method SaveWork(store: SqliteAdapter, st: Settings, rows: seq<Row>, ghost work: seq<string>,
                  ghost before: map<string, Row>, ghost done: seq<string>)
    returns (ok: bool, saved: seq<string>)
    requires store.Valid() && Keyed(before)
    requires store.concepts == TableAfter(st, before, done)
    requires NoRepeats(done + work) && Workable(st, before, done + work) && RowsFor(before, rows, work)
    modifies store
    ensures store.Valid()
    ensures ok <==> AllFew(rows)
    ensures ok ==> saved == work && store.concepts == TableAfter(st, before, done + work)
  {
    saved, ok := [], true;
    assert done + work[..0] == done;
    for i := 0 to |rows|
      invariant store.Valid() && store.concepts == TableAfter(st, before, done + work[..i])
      invariant saved == work[..i] && ok
      invariant AllFew(rows[..i])
    {
      NextWork(st, before, done, work, rows, i);
      ok := SaveVector(store, st, rows[i]);
      OneMoreFits(rows, i);
      if !ok {
        return;
      }
      saved := saved + [rows[i].id];
    }
    assert work[..|work|] == work && rows[..|rows|] == rows;
  }

  lemma OneMoreFits(rows: seq<Row>, i: nat)
    requires i < |rows|
    ensures AllFew(rows[..i + 1]) <==> AllFew(rows[..i]) && FewTags(rows[i])
    ensures !FewTags(rows[i]) ==> !AllFew(rows)
  {
    assert rows[..i + 1] == rows[..i] + [rows[i]];
  }

  lemma NextWork(st: Settings, before: map<string, Row>, done: seq<string>, work: seq<string>, rows: seq<Row>, i: nat)
    requires i < |work| && Keyed(before) && NoRepeats(done + work) && Workable(st, before, done + work)
    requires RowsFor(before, rows, work)
    ensures var row := rows[i];
      var now := TableAfter(st, before, done + work[..i]);
      && row == before[work[i]] && row.id == work[i] && row.id in now && now[row.id] == row
      && row.namespace == st.namespace && st.textOf(row).Some?
      && now[row.id := RowAfter(st, row)] == TableAfter(st, before, done + work[..i + 1])
    ensures work[..i + 1] == work[..i] + [rows[i].id]
  {
    var all := done + work;
    assert all[|done| + i] == work[i];
    assert Find(before, work[i]) == Some(rows[i]);
    forall id | id in done + work[..i] ensures id != work[i] {
      var p :| 0 <= p < |done| + i && (done + work[..i])[p] == id;
      assert all[p] == id;
    }
    assert done + work[..i + 1] == done + work[..i] + [work[i]];
  }

  /** Where the walk stands: the first `n` ids are done. */
  ghost predicate Walked(st: Settings, before: map<string, Row>, l: seq<string>, n: nat, concepts: map<string, Row>,
                         reembedded: seq<string>, skipped: seq<(string, SkipReason)>, cursor: Option<string>) {
    && Keyed(before) && Ascending(l) && ListsSet(l, ForeignBehind(st, before, None)) && n <= |l|
    && reembedded == Chosen(st, before, l[..n]) && skipped == Passed(st, before, l[..n])
    && concepts == TableAfter(st, before, reembedded)
    && cursor == (if n == 0 then None else Some(l[n - 1]))
    && |reembedded| <= st.limit
  }

  lemma ForeignAfter(st: Settings, before: map<string, Row>, done: seq<string>)
    requires Workable(st, before, done)
    ensures Foreign(st, TableAfter(st, before, done)) == Foreign(st, before) - (set id | id in done)
  {
  }

  lemma ChosenAreWorkable(st: Settings, before: map<string, Row>, l: seq<string>, n: nat)
    requires ListsSet(l, ForeignBehind(st, before, None)) && n <= |l|
    ensures Workable(st, before, Chosen(st, before, l[..n]))
  {
    forall id | id in Chosen(st, before, l[..n])
      ensures id in before && IsForeign(st, before[id]) && Eligible(st, before[id])
    {
      ChosenMembers(st, before, l[..n], id);
      assert id in l;
    }
  }

  /** The next page is the next stretch of the list. */
  lemma NextPage(st: Settings, before: map<string, Row>, l: seq<string>, n: nat, concepts: map<string, Row>,
                 reembedded: seq<string>, skipped: seq<(string, SkipReason)>, cursor: Option<string>, all: seq<string>)
    requires Walked(st, before, l, n, concepts, reembedded, skipped, cursor)
    requires Ascending(all) && ListsSet(all, ForeignBehind(st, concepts, cursor))
    ensures all == l[n..]
  {
    ChosenAreWorkable(st, before, l, n);
    ForeignAfter(st, before, reembedded);
    forall x ensures x in l[n..] <==> x in ForeignBehind(st, concepts, cursor) {
      ChosenMembers(st, before, l[..n], x);
      if x in l[n..] {
        StillToCome(st, before, l, n, x);
        if n > 0 {
          BehindCursor(l, n, x);
        }
      }
      if x in ForeignBehind(st, concepts, cursor) {
        assert x in l by {
          StringLessTotal("", x);
        }
        NotYetWalked(l, n, x);
      }
    }
    assert Ascending(l[n..]);
    AscendingUnique(all, l[n..], ForeignBehind(st, concepts, cursor));
  }

  lemma StillToCome(st: Settings, before: map<string, Row>, l: seq<string>, n: nat, x: string)
    requires Ascending(l) && n <= |l| && x in l[n..]
    ensures x in l && x !in l[..n]
  {
    AscendingFacts(l);
    var p :| n <= p < |l| && l[p] == x;
    assert forall q :: 0 <= q < n ==> l[..n][q] != l[p];
  }

  lemma BehindCursor(l: seq<string>, n: nat, x: string)
    requires Ascending(l) && 0 < n <= |l| && x in l[n..]
    ensures StringLess(l[n - 1], x)
  {
    var p :| n <= p < |l| && l[p] == x;
  }

  lemma NotYetWalked(l: seq<string>, n: nat, x: string)
    requires Ascending(l) && n <= |l| && x in l && (n > 0 ==> StringLess(l[n - 1], x))
    ensures x in l[n..]
  {
    var p :| 0 <= p < |l| && l[p] == x;
    if p < n {
      StringLessTotal(l[p], l[n - 1]);
    }
    assert l[n..][p - n] == x;
  }

  /** The ids behind the initial cursor, in the order in which they will be reached. */
  lemma AscendingList(s: set<string>) returns (ids: seq<string>)
    ensures Ascending(ids) && ListsSet(ids, s)
  {
    var list := AnyList(s);
    SortedListAscends(list, s);
    ids := Sort(list, StringLess);
  }

  lemma {:induction false} AnyList(s: set<string>) returns (list: seq<string>)
    ensures NoRepeats(list) && ListsSet(list, s)
    decreases s
  {
    if s == {} {
      list := [];
    } else {
      var x :| x in s;
      var rest := AnyList(s - {x});
      list := rest + [x];
    }
  }

  lemma BeforeAnyPage(st: Settings, before: map<string, Row>, l: seq<string>)
    requires Keyed(before) && Ascending(l) && ListsSet(l, ForeignBehind(st, before, None))
    ensures Walked(st, before, l, 0, before, [], [], None)
  {
    assert l[..0] == [];
    assert TableAfter(st, before, []) == before;
  }

  /** The ids of a page are in the table, and their rows are still as they were. */
  lemma PageIsUntouched(st: Settings, before: map<string, Row>, l: seq<string>, n: nat, concepts: map<string, Row>,
                        reembedded: seq<string>, skipped: seq<(string, SkipReason)>, cursor: Option<string>)
    requires Walked(st, before, l, n, concepts, reembedded, skipped, cursor)
    ensures forall id :: id in l[n..] ==> id in before && id in concepts && concepts[id] == before[id]
    ensures forall id :: id in l[n..] ==> IsForeign(st, before[id])
  {
    forall id | id in l[n..]
      ensures id in before && id in concepts && concepts[id] == before[id] && IsForeign(st, before[id])
    {
      StillToCome(st, before, l, n, id);
      ChosenMembers(st, before, l[..n], id);
      assert id in ForeignBehind(st, before, None);
    }
  }

  /** Equal rows are chosen and passed alike. */
  lemma {:induction false} ChosenAlike(st: Settings, a: map<string, Row>, b: map<string, Row>, ids: seq<string>)
    requires forall id :: id in ids ==> id in a && id in b && a[id] == b[id]
    ensures Chosen(st, a, ids) == Chosen(st, b, ids) && Passed(st, a, ids) == Passed(st, b, ids)
  {
    if ids != [] {
      var init := ids[..|ids| - 1];
      assert forall id :: id in init ==> id in ids;
      ChosenAlike(st, a, b, init);
    }
  }

  lemma Stretch(l: seq<string>, n: nat, m: nat)
    requires n <= m <= |l|
    ensures l[..m] == l[..n] + l[n..m]
    ensures forall id :: id in l[n..m] ==> id in l[n..]
    ensures forall id :: id in l[..m] ==> id in l[..n] || id in l[n..m]
  {
    assert forall id :: id in l[n..m] ==> id in l[n..] by {
      forall id | id in l[n..m] ensures id in l[n..] {
        var p :| 0 <= p < m - n && l[n..m][p] == id;
        assert l[n..][p] == id;
      }
    }
  }

  /** What was looked at on a page that starts behind the first `n` ids. */
  ghost predicate Looked(st: Settings, concepts: map<string, Row>, l: seq<string>, n: nat, ids: seq<string>,
                         chosen: seq<string>, passed: seq<(string, SkipReason)>) {
    && n + |ids| <= |l| && ids == l[n..n + |ids|]
    && chosen == Chosen(st, concepts, ids) && passed == Passed(st, concepts, ids)
  }

  /** How it extends the walk. */
  lemma PageExtends(st: Settings, before: map<string, Row>, l: seq<string>, n: nat, concepts: map<string, Row>,
                    reembedded: seq<string>, skipped: seq<(string, SkipReason)>, cursor: Option<string>,
                    ids: seq<string>, chosen: seq<string>, passed: seq<(string, SkipReason)>)
    requires Walked(st, before, l, n, concepts, reembedded, skipped, cursor)
    requires Looked(st, concepts, l, n, ids, chosen, passed)
    ensures Chosen(st, before, l[..n + |ids|]) == reembedded + chosen
    ensures Passed(st, before, l[..n + |ids|]) == skipped + passed
  {
    assert forall id :: id in ids ==> id in before && id in concepts && before[id] == concepts[id] by {
      Stretch(l, n, n + |ids|);
      PageIsUntouched(st, before, l, n, concepts, reembedded, skipped, cursor);
    }
    Extends(st, before, concepts, l, n, ids);
  }

  lemma Extends(st: Settings, before: map<string, Row>, concepts: map<string, Row>, l: seq<string>, n: nat,
                ids: seq<string>)
    requires n + |ids| <= |l| && ids == l[n..n + |ids|]
    requires forall id :: id in ids ==> id in before && id in concepts && before[id] == concepts[id]
    ensures Chosen(st, before, l[..n + |ids|]) == Chosen(st, before, l[..n]) + Chosen(st, concepts, ids)
    ensures Passed(st, before, l[..n + |ids|]) == Passed(st, before, l[..n]) + Passed(st, concepts, ids)
  {
    assert l[..n + |ids|] == l[..n] + ids;
    ChosenAlike(st, concepts, before, ids);
    ChosenAppend(st, before, l[..n], ids);
  }

  /** The chosen concepts are fit to be saved. */
  lemma ChosenIsWork(st: Settings, before: map<string, Row>, l: seq<string>, n: nat, concepts: map<string, Row>,
                     reembedded: seq<string>, skipped: seq<(string, SkipReason)>, cursor: Option<string>,
                     ids: seq<string>, chosen: seq<string>, passed: seq<(string, SkipReason)>, rows: seq<Row>)
    requires Walked(st, before, l, n, concepts, reembedded, skipped, cursor)
    requires Looked(st, concepts, l, n, ids, chosen, passed) && RowsFor(concepts, rows, chosen)
    ensures NoRepeats(reembedded + chosen) && Workable(st, before, reembedded + chosen)
    ensures RowsFor(before, rows, chosen)
  {
    var m := n + |ids|;
    PageExtends(st, before, l, n, concepts, reembedded, skipped, cursor, ids, chosen, passed);
    DistinctChosen(st, before, l, m);
    ChosenAreWorkable(st, before, l, m);
    ChosenRows(st, before, l, n, concepts, reembedded, skipped, cursor, ids, chosen, passed, rows);
  }

  lemma ChosenRows(st: Settings, before: map<string, Row>, l: seq<string>, n: nat, concepts: map<string, Row>,
                   reembedded: seq<string>, skipped: seq<(string, SkipReason)>, cursor: Option<string>,
                   ids: seq<string>, chosen: seq<string>, passed: seq<(string, SkipReason)>, rows: seq<Row>)
    requires Walked(st, before, l, n, concepts, reembedded, skipped, cursor)
    requires Looked(st, concepts, l, n, ids, chosen, passed) && RowsFor(concepts, rows, chosen)
    ensures RowsFor(before, rows, chosen)
  {
    forall i | 0 <= i < |chosen| ensures Find(before, chosen[i]) == Some(rows[i]) {
      ChosenUntouched(st, before, l, n, concepts, reembedded, skipped, cursor, ids, chosen, passed, chosen[i]);
      assert Find(concepts, chosen[i]) == Some(rows[i]);
    }
  }

  lemma ChosenUntouched(st: Settings, before: map<string, Row>, l: seq<string>, n: nat, concepts: map<string, Row>,
                        reembedded: seq<string>, skipped: seq<(string, SkipReason)>, cursor: Option<string>,
                        ids: seq<string>, chosen: seq<string>, passed: seq<(string, SkipReason)>, id: string)
    requires Walked(st, before, l, n, concepts, reembedded, skipped, cursor)
    requires Looked(st, concepts, l, n, ids, chosen, passed) && id in chosen
    ensures id in before && id in concepts && before[id] == concepts[id]
  {
    ChosenMembers(st, concepts, ids, id);
    Stretch(l, n, n + |ids|);
    PageIsUntouched(st, before, l, n, concepts, reembedded, skipped, cursor);
  }

  lemma DistinctChosen(st: Settings, before: map<string, Row>, l: seq<string>, m: nat)
    requires Ascending(l) && ListsSet(l, ForeignBehind(st, before, None)) && m <= |l|
    ensures NoRepeats(Chosen(st, before, l[..m])) && NoRepeats(Passed(st, before, l[..m]))
    ensures |Chosen(st, before, l[..m])| + |Passed(st, before, l[..m])| == m
  {
    AscendingFacts(l);
    assert NoRepeats(l[..m]);
    assert forall id :: id in l[..m] ==> id in l;
    WalkedCounts(st, before, l[..m]);
  }

  /** The outcome of a whole call, from the table it started with. */
  ghost predicate IsReembedding(st: Settings, before: map<string, Row>, l: seq<string>, n: nat,
                                after: map<string, Row>, r: ReembedOutcome) {
    && Ascending(l) && ListsSet(l, ForeignBehind(st, before, None)) && n <= |l|
    && r.reembedded == Chosen(st, before, l[..n]) && r.skipped == Passed(st, before, l[..n])
    && |r.reembedded| <= st.limit && (|r.reembedded| < st.limit ==> n == |l|)
    && after == TableAfter(st, before, r.reembedded)
    && r.remaining == |Foreign(st, after)|
  }

  /** The walk is a prefix of what the call may save at all. */
  lemma WalkIsPrefix(st: Settings, before: map<string, Row>, l: seq<string>, n: nat)
    requires n <= |l| && |Chosen(st, before, l[..n])| <= st.limit
    ensures Chosen(st, before, l[..n]) <= Take(Chosen(st, before, l), st.limit)
    ensures |Chosen(st, before, l[..n])| == st.limit || n == |l| ==>
      Chosen(st, before, l[..n]) == Take(Chosen(st, before, l), st.limit)
  {
    ChosenAppend(st, before, l[..n], l[n..]);
    assert l == l[..n] + l[n..];
  }

  ghost predicate AllFit(before: map<string, Row>, ids: seq<string>) {
    forall id :: id in ids ==> id in before && FewTags(before[id])
  }

  /** Of the concepts the call would save, one has more stored tags than a save accepts. */
  ghost predicate MeetsTooManyTags(st: Settings, before: map<string, Row>, l: seq<string>) {
    exists id :: id in Take(Chosen(st, before, l), st.limit) && id in before && !FewTags(before[id])
  }

  lemma PageFits(before: map<string, Row>, done: seq<string>, work: seq<string>, rows: seq<Row>)
    requires RowsFor(before, rows, work) && AllFit(before, done)
    requires AllFew(rows)
    ensures AllFit(before, done + work)
  {
    forall id | id in work ensures id in before && FewTags(before[id]) {
      var i :| 0 <= i < |work| && work[i] == id;
      assert Find(before, work[i]) == Some(rows[i]);
    }
  }

  /** Saving what a page chose brings the walk to its end, over rows whose tags all fit. */
  lemma PageDone(st: Settings, before: map<string, Row>, l: seq<string>, n: nat, concepts: map<string, Row>,
                 reembedded: seq<string>, skipped: seq<(string, SkipReason)>, cursor: Option<string>,
                 ids: seq<string>, chosen: seq<string>, passed: seq<(string, SkipReason)>, rows: seq<Row>,
                 after: map<string, Row>, m: nat, reembedded': seq<string>, skipped': seq<(string, SkipReason)>)
    requires Walked(st, before, l, n, concepts, reembedded, skipped, cursor) && AllFit(before, reembedded)
    requires Looked(st, concepts, l, n, ids, chosen, passed) && ids != []
    requires RowsFor(before, rows, chosen) && AllFew(rows)
    requires m == n + |ids| && reembedded' == reembedded + chosen && skipped' == skipped + passed
    requires |reembedded'| <= st.limit && after == TableAfter(st, before, reembedded')
    ensures Walked(st, before, l, m, after, reembedded', skipped', Some(ids[|ids| - 1]))
    ensures AllFit(before, reembedded')
  {
    PageExtends(st, before, l, n, concepts, reembedded, skipped, cursor, ids, chosen, passed);
    PageFits(before, reembedded, chosen, rows);
  }

  /** A row that no save accepts is one that the call was to save. */
  lemma PageDoesNotFit(st: Settings, before: map<string, Row>, l: seq<string>, n: nat, concepts: map<string, Row>,
                       reembedded: seq<string>, skipped: seq<(string, SkipReason)>, cursor: Option<string>,
                       ids: seq<string>, chosen: seq<string>, passed: seq<(string, SkipReason)>, rows: seq<Row>)
    requires Walked(st, before, l, n, concepts, reembedded, skipped, cursor)
    requires Looked(st, concepts, l, n, ids, chosen, passed) && |reembedded| + |chosen| <= st.limit
    requires RowsFor(before, rows, chosen) && !AllFew(rows)
    ensures MeetsTooManyTags(st, before, l)
  {
    PageExtends(st, before, l, n, concepts, reembedded, skipped, cursor, ids, chosen, passed);
    WalkIsPrefix(st, before, l, n + |ids|);
    RejectedIsListed(before, Take(Chosen(st, before, l), st.limit), reembedded, chosen, rows);
  }

  lemma RejectedIsListed(before: map<string, Row>, ids: seq<string>, done: seq<string>, work: seq<string>,
                         rows: seq<Row>)
    requires done + work <= ids && RowsFor(before, rows, work) && !AllFew(rows)
    ensures exists id :: id in ids && id in before && !FewTags(before[id])
  {
    var i :| 0 <= i < |rows| && !FewTags(rows[i]);
    assert Find(before, work[i]) == Some(rows[i]);
    assert work[i] == ids[|done| + i];
  }

  /** At its end the walk is a re-embedding that met no row it could not save. */
  lemma WalkEnds(st: Settings, before: map<string, Row>, l: seq<string>, n: nat, concepts: map<string, Row>,
                 reembedded: seq<string>, skipped: seq<(string, SkipReason)>, cursor: Option<string>)
    requires Walked(st, before, l, n, concepts, reembedded, skipped, cursor) && AllFit(before, reembedded)
    requires |reembedded| == st.limit || n == |l|
    ensures IsReembedding(st, before, l, n, concepts,
                          ReembedOutcome(reembedded, skipped, |Foreign(st, concepts)|))
    ensures !MeetsTooManyTags(st, before, l)
  {
    WalkIsPrefix(st, before, l, n);
  }

  /**
   The cursor loop. It fails exactly if a concept it is to save has more stored tags than a save
   accepts, which a restored backup can contain.
   */
  method Reembed(store: SqliteAdapter, st: Settings)
    returns (r: Option<ReembedOutcome>, ghost l: seq<string>, ghost n: nat)
    requires store.Valid()
    modifies store
    ensures store.Valid()
    ensures r.Some? ==> IsReembedding(st, old(store.concepts), l, n, store.concepts, r.value)
    ensures Ascending(l) && ListsSet(l, ForeignBehind(st, old(store.concepts), None))
    ensures r.None? <==> MeetsTooManyTags(st, old(store.concepts), l)
  {
    ghost var before := store.concepts;
    var reembedded: seq<string> := [];
    var skipped: seq<(string, SkipReason)> := [];
    var cursor: Option<string> := None;
    l := AscendingList(ForeignBehind(st, before, None));
    n := 0;
    BeforeAnyPage(st, before, l);
    while |reembedded| < st.limit
      invariant store.Valid() && Walked(st, before, l, n, store.concepts, reembedded, skipped, cursor)
      invariant AllFit(before, reembedded)
      decreases |l| - n
    {
      var ids, all := FindForeignVectors(store, st, cursor, REEMBED_PAGE);
      NextPage(st, before, l, n, store.concepts, reembedded, skipped, cursor, all);
      if ids == [] {
        break;
      }
      PageInTable(st, before, l, n, store.concepts, reembedded, skipped, cursor, ids);
      ghost var page := store.concepts;
      var work, chosen, passed, walked := CheckPage(store, st, ids, st.limit - |reembedded|);
      var looked := ids[..walked];
      ChosenIsWork(st, before, l, n, page, reembedded, skipped, cursor, looked, chosen, passed, work);
      var ok, saved := SaveWork(store, st, work, chosen, before, reembedded);
      if !ok {
        PageDoesNotFit(st, before, l, n, page, reembedded, skipped, cursor, looked, chosen, passed, work);
        return None, l, n;
      }
      ghost var m := n + |looked|;
      var reembedded', skipped' := reembedded + saved, skipped + passed;
      PageDone(st, before, l, n, page, reembedded, skipped, cursor, looked, chosen, passed,
               work, store.concepts, m, reembedded', skipped');
      reembedded, skipped, cursor, n := reembedded', skipped', Some(looked[|looked| - 1]), m;
    }
    WalkEnds(st, before, l, n, store.concepts, reembedded, skipped, cursor);
    r := Some(ReembedOutcome(reembedded, skipped, |Foreign(st, store.concepts)|));
  }

  lemma PageInTable(st: Settings, before: map<string, Row>, l: seq<string>, n: nat, concepts: map<string, Row>,
                    reembedded: seq<string>, skipped: seq<(string, SkipReason)>, cursor: Option<string>,
                    ids: seq<string>)
    requires Walked(st, before, l, n, concepts, reembedded, skipped, cursor) && ids == Take(l[n..], REEMBED_PAGE)
    ensures forall id :: id in ids ==> id in concepts
    ensures forall w: nat :: w <= |ids| ==> n + w <= |l| && ids[..w] == l[n..n + w]
  {
    PageIsUntouched(st, before, l, n, concepts, reembedded, skipped, cursor);
    assert forall id :: id in ids ==> id in l[n..];
  }

  // ------------------------------------------------ a call that fails

  /** `n` different strings. */
  function ManyTags(n: nat): seq<string> {
    seq(n, i requires 0 <= i => seq(i, _ => 'a'))
  }

  lemma ManyTagsAreTooMany(row: Row)
    requires row.tags == ManyTags(MAX_TAGS + 1)
    ensures !FewTags(row)
  {
    forall i, j | 0 <= i < j < |row.tags| ensures row.tags[i] != row.tags[j] {
      assert |row.tags[i]| == i && |row.tags[j]| == j;
    }
    DedupeKeeps(row.tags);
  }

  lemma OneChosen(st: Settings, concepts: map<string, Row>, id: string)
    requires id in concepts && Eligible(st, concepts[id])
    ensures Chosen(st, concepts, [id]) == [id]
  {
    assert [id][..0] == [];
  }

  function OverTagged(): Row {
    Row("x", "default", 1, 0, 0, ManyTags(MAX_TAGS + 1), Some("text"), None, Some([]), None,
        map[Vector := Provenance(Derived, Some(Markdown), None, None, None)], None, None)
  }

  function OneAtATime(model: string): Settings {
    Settings("default", false, 1, model, row => Some(("text", Markdown)), text => [], key => 0)
  }

  /** A store with one derived vector of another model, under 65 tags: the call fails. */
  lemma ReembedCanFail(model: string)
    ensures
      var st, concepts := OneAtATime(model), map["x" := OverTagged()];
      && Keyed(concepts) && Ascending(["x"]) && ListsSet(["x"], ForeignBehind(st, concepts, None))
      && MeetsTooManyTags(st, concepts, ["x"])
  {
    var st, concepts := OneAtATime(model), map["x" := OverTagged()];
    ManyTagsAreTooMany(OverTagged());
    assert Eligible(st, OverTagged());
    OneChosen(st, concepts, "x");
    assert "x" in Take(Chosen(st, concepts, ["x"]), st.limit);
  }

  // ------------------------------------------------------- what comes out

  /** Every vector is accounted for: made anew once, reported once with its reason, or still foreign. */
  lemma ReembedAccounts(st: Settings, before: map<string, Row>, l: seq<string>, n: nat, after: map<string, Row>,
                        r: ReembedOutcome)
    requires IsReembedding(st, before, l, n, after, r)
    ensures NoRepeats(r.reembedded)
    ensures forall i, j :: 0 <= i < j < |r.skipped| ==> r.skipped[i].0 != r.skipped[j].0
    ensures forall i :: 0 <= i < |r.skipped| ==> r.skipped[i].0 !in r.reembedded
    ensures |Foreign(st, before)| == |r.reembedded| + r.remaining
  {
    DistinctChosen(st, before, l, n);
    ChosenAreWorkable(st, before, l, n);
    ForeignAfter(st, before, r.reembedded);
    CountOfDistinct(r.reembedded);
    ChosenInForeign(st, before, r.reembedded);
    forall i | 0 <= i < |r.skipped| ensures r.skipped[i].0 !in r.reembedded {
      PassedMembers(st, before, l[..n], r.skipped[i]);
      ChosenMembers(st, before, l[..n], r.skipped[i].0);
    }
    forall i, j | 0 <= i < j < |r.skipped| ensures r.skipped[i].0 != r.skipped[j].0 {
      PassedMembers(st, before, l[..n], r.skipped[i]);
      PassedMembers(st, before, l[..n], r.skipped[j]);
    }
  }

  lemma ChosenInForeign(st: Settings, before: map<string, Row>, done: seq<string>)
    requires Workable(st, before, done) && |(set id | id in done)| == |done|
    ensures |Foreign(st, before) - (set id | id in done)| == |Foreign(st, before)| - |done|
  {
    var d := set id | id in done;
    assert Foreign(st, before) == d + (Foreign(st, before) - d);
  }

  /**
   A call that stops below its limit has dealt with every foreign vector, exactly: made it anew
   or reported it. The one id it never reaches is the empty one, because the query asks for ids
   greater than the empty string.
   */
  lemma BelowLimitNoneIsMissed(st: Settings, before: map<string, Row>, l: seq<string>, n: nat, after: map<string, Row>,
                               r: ReembedOutcome, id: string)
    requires IsReembedding(st, before, l, n, after, r) && |r.reembedded| < st.limit
    requires id in Foreign(st, before)
    ensures (id in r.reembedded || exists reason :: (id, reason) in r.skipped) <==> id != ""
  {
    StringLessTotal("", id);
    assert l[..n] == l;
    ChosenMembers(st, before, l, id);
    PassedMembers(st, before, l, (id, ReasonFor(st, before[id])));
    forall reason | (id, reason) in r.skipped ensures id in l {
      PassedMembers(st, before, l, (id, reason));
    }
  }

  /** Whatever a call does to a store whose one foreign vector has the empty id, it only counts it. */
  lemma EmptyIdIsOnlyCounted(model: string, l: seq<string>, n: nat, after: map<string, Row>, r: ReembedOutcome)
    requires IsReembedding(OneAtATime(model), map["" := OverTagged().(id := "", tags := [])], l, n, after, r)
    ensures r == ReembedOutcome([], [], 1)
  {
    var st, before := OneAtATime(model), map["" := OverTagged().(id := "", tags := [])];
    StringLessTotal("", "");
    assert ForeignBehind(st, before, None) == {};
    AscendingUnique(l, [], {});
    BeforeAnyPage(st, before, []);
    assert Foreign(st, before) == {""};
  }

  /** Outside of `overwrite` an authored vector is the one that was there before. */
  lemma AuthoredVectorsStay(st: Settings, before: map<string, Row>, l: seq<string>, n: nat, after: map<string, Row>,
                            r: ReembedOutcome, id: string)
    requires IsReembedding(st, before, l, n, after, r) && id in before
    requires !IsForeign(st, before[id]) || (Authored(before[id], Vector) && !st.overwrite)
    ensures id in after && after[id] == before[id]
  {
    ChosenMembers(st, before, l[..n], id);
    ChosenAreWorkable(st, before, l, n);
  }
}
