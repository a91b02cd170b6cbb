/** One attempt of a batch save without concurrent writers, against the store itself. */
module Saving {
  import opened Wrappers
  import opened Rows
  import opened Planning
  import opened SqliteStore
  import opened Concurrency
  import opened SaveRuns
  import opened SavedColumns

  datatype SaveError = DuplicateId | Rejected(index: nat, reason: PlanError)

  predicate HasDuplicate(items: seq<Item>) {
    exists i, j :: 0 <= i < j < |items| && ItemId(items[i]) == ItemId(items[j])
  }

  /** The plan of a save item. */
  function PlanSave(item: Item, concepts: map<string, Row>, now: int, model: string): Result<PlannedWrite, PlanError>
    requires item.SaveItem?
  {
    PlanOf(item.entry, item.key, Find(concepts, item.key), item.auto, now, model)
  }

  lemma AcceptedExactly(items: seq<Item>, concepts: map<string, Row>, now: int, model: string)
    requires OnlySaves(items)
    ensures FirstRejected(items, concepts, now, model, 0).None? <==> AllAcceptable(items, concepts)
  {
    forall i | 0 <= i < |items|
      ensures PlanSave(items[i], concepts, now, model).Ok?
        <==> Acceptable(items[i].entry, Find(concepts, items[i].key), items[i].auto)
    {
      PlanSucceedsExactly(items[i].entry, items[i].key, Find(concepts, items[i].key), items[i].auto, now, model);
    }
  }

  /** The item-by-item effect, spelled out. */
  lemma AtomicallySaved(concepts: map<string, Row>, items: seq<Item>, now: int, model: string)
    requires Keyed(concepts) && OnlySaves(items) && DistinctItems(items)
    requires FirstRejected(items, concepts, now, model, 0).None?
    ensures EachIsSaved(items, concepts, now, model, AtomicAll(concepts, items, now, model))
  {
    var after := AtomicAll(concepts, items, now, model);
    forall i | 0 <= i < |items|
      ensures items[i].key in after
      ensures IsSavedRow(items[i].entry, items[i].key, Find(concepts, items[i].key), items[i].auto, now, model,
                         after[items[i].key])
    {
      assert PlanSave(items[i], concepts, now, model).Ok?;
      AtomicAt(concepts, items, now, model, i);
      PlanSavesColumns(items[i].entry, items[i].key, Find(concepts, items[i].key), items[i].auto, now, model);
    }
    forall id | forall i :: 0 <= i < |items| ==> items[i].key != id ensures Find(after, id) == Find(concepts, id) {
      AtomicElsewhere(concepts, items, now, model, id);
    }
  }

  /** The write and the row planned for one item. */
  ghost predicate PlannedAt(concepts: map<string, Row>, item: Item, now: int, model: string, w: Write, row: Row) {
    PlanItem(item, Find(concepts, ItemId(item)), now, model) == Submits(w, row)
  }

  /** The writes and rows planned for all items from one state. */
  ghost predicate PlannedFor(concepts: map<string, Row>, items: seq<Item>, now: int, model: string,
                             writes: seq<Write>, rows: seq<Row>) {
    && |writes| == |rows| == |items|
    && (items != [] ==>
          var n := |items| - 1;
          && PlannedFor(concepts, items[..n], now, model, writes[..n], rows[..n])
          && PlannedAt(concepts, items[n], now, model, writes[n], rows[n]))
  }

  /** The first item from the `n`-th on whose plan is refused. */
  function FirstRejected(items: seq<Item>, concepts: map<string, Row>, now: int, model: string, n: nat)
    : (r: Option<(nat, PlanError)>)
    requires n <= |items| && OnlySaves(items)
    ensures r.None? <==> forall i :: n <= i < |items| ==> PlanSave(items[i], concepts, now, model).Ok?
    ensures r.Some? ==>
      && n <= r.value.0 < |items| && PlanSave(items[r.value.0], concepts, now, model) == Err(r.value.1)
      && forall i :: n <= i < r.value.0 ==> PlanSave(items[i], concepts, now, model).Ok?
    decreases |items| - n
  {
    if n == |items| then None
    else
      match PlanSave(items[n], concepts, now, model)
      case Err(reason) => Some((n, reason))
      case Ok(_) => FirstRejected(items, concepts, now, model, n + 1)
  }

  /** The entry of every item may be saved over the row it finds. */
  ghost predicate AllAcceptable(items: seq<Item>, concepts: map<string, Row>)
    requires OnlySaves(items)
  {
    forall i :: 0 <= i < |items| ==>
      Acceptable(items[i].entry, Find(concepts, items[i].key), items[i].auto)
  }

  /** Every item's row is stored as its entry, its derived vector and the row it found say; the others stay. */
  ghost predicate EachIsSaved(items: seq<Item>, before: map<string, Row>, now: int, model: string,
                              after: map<string, Row>)
    requires OnlySaves(items)
  {
    && (forall i :: 0 <= i < |items| ==>
          && items[i].key in after
          && IsSavedRow(items[i].entry, items[i].key, Find(before, items[i].key), items[i].auto, now, model,
                        after[items[i].key]))
    && forall id :: (forall i :: 0 <= i < |items| ==> items[i].key != id) ==> Find(after, id) == Find(before, id)
  }

  /** Plan every item from the rows as they are, then write all of them or none. */
  method SaveBatch(store: SqliteAdapter, items: seq<Item>, now: int, model: string)
    returns (r: Result<seq<Row>, SaveError>)
    requires store.Valid() && OnlySaves(items)
    modifies store
    ensures store.Valid()
    ensures r.Err? ==> store.concepts == old(store.concepts) && store.vectors == old(store.vectors)
    ensures HasDuplicate(items) ==> r == Err(DuplicateId)
    ensures !HasDuplicate(items) ==>
      match FirstRejected(items, old(store.concepts), now, model, 0)
      case Some((n, reason)) => r == Err(Rejected(n, reason))
      case None => r.Ok?
    ensures r.Ok? <==> !HasDuplicate(items) && AllAcceptable(items, old(store.concepts))
    ensures r.Ok? ==> EachIsSaved(items, old(store.concepts), now, model, store.concepts)
    ensures r.Ok? ==> store.concepts == AtomicAll(old(store.concepts), items, now, model)
    ensures r.Ok? ==> |r.value| == |items|
    ensures r.Ok? ==> forall i :: 0 <= i < |items| ==> Find(store.concepts, ItemId(items[i])) == Some(r.value[i])
  {
    AcceptedExactly(items, store.concepts, now, model);
    if HasDuplicate(items) {
      return Err(DuplicateId);
    }
    var writes: seq<Write> := [];
    var rows: seq<Row> := [];
    for i := 0 to |items|
      invariant store.concepts == old(store.concepts) && store.vectors == old(store.vectors) && store.Valid()
      invariant PlannedFor(store.concepts, items[..i], now, model, writes, rows)
      invariant FirstRejected(items, store.concepts, now, model, 0)
        == FirstRejected(items, store.concepts, now, model, i)
    {
      var existing := store.FindConcept(items[i].key);
      var planned := Plan(items[i].entry, items[i].key, existing, items[i].auto, now, model);
      if planned.Err? {
        return Err(Rejected(i, planned.error));
      }
      OneMorePlanned(store.concepts, items, i, now, model, writes, rows, planned.value.write, planned.value.row);
      writes := writes + [planned.value.write];
      rows := rows + [planned.value.row];
    }
    assert items[..|items|] == items;
    PlannedBatchIsAtomic(store.concepts, items, now, model, writes, rows);
    RowsAreStored(store.concepts, items, now, model, writes, rows);
    AtomicallySaved(store.concepts, items, now, model);
    var outcome := store.ApplyWrites(writes);
    return Ok(rows);
  }

  lemma OneMorePlanned(concepts: map<string, Row>, items: seq<Item>, n: nat, now: int, model: string,
                       writes: seq<Write>, rows: seq<Row>, w: Write, row: Row)
    requires n < |items| && PlannedFor(concepts, items[..n], now, model, writes, rows)
    requires PlannedAt(concepts, items[n], now, model, w, row)
    ensures PlannedFor(concepts, items[..n + 1], now, model, writes + [w], rows + [row])
  {
    assert items[..n + 1][..n] == items[..n];
    assert (writes + [w])[..n] == writes && (rows + [row])[..n] == rows;
  }

  lemma {:induction false} PlannedForEach(concepts: map<string, Row>, items: seq<Item>, now: int, model: string,
                                          writes: seq<Write>, rows: seq<Row>, i: nat)
    requires PlannedFor(concepts, items, now, model, writes, rows) && i < |items|
    ensures PlannedAt(concepts, items[i], now, model, writes[i], rows[i])
  {
    var n := |items| - 1;
    if i < n {
      PlannedForEach(concepts, items[..n], now, model, writes[..n], rows[..n], i);
    }
  }

  lemma RowsAreStored(concepts: map<string, Row>, items: seq<Item>, now: int, model: string, writes: seq<Write>,
                      rows: seq<Row>)
    requires !HasDuplicate(items) && PlannedFor(concepts, items, now, model, writes, rows)
    ensures forall i :: 0 <= i < |items| ==>
      Find(AtomicAll(concepts, items, now, model), ItemId(items[i])) == Some(rows[i])
  {
    forall i | 0 <= i < |items|
      ensures Find(AtomicAll(concepts, items, now, model), ItemId(items[i])) == Some(rows[i])
    {
      PlannedForEach(concepts, items, now, model, writes, rows, i);
      AtomicAt(concepts, items, now, model, i);
    }
  }

  /** The batch of separately planned writes is applied and has the atomic effect. */
  lemma {:induction false} PlannedBatchIsAtomic(concepts: map<string, Row>, items: seq<Item>, now: int, model: string,
                                                writes: seq<Write>, rows: seq<Row>)
    requires Keyed(concepts) && OnlySaves(items) && DistinctItems(items)
    requires PlannedFor(concepts, items, now, model, writes, rows)
    ensures Outcome(concepts, writes, 0).Applied?
    ensures WrittenAll(concepts, writes) == AtomicAll(concepts, items, now, model)
  {
    if items != [] {
      var n := |items| - 1;
      ItemsInit(items, n);
      PlannedBatchIsAtomic(concepts, items[..n], now, model, writes[..n], rows[..n]);
      assert writes == writes[..n] + [writes[n]];
      AddPlannedWrite(concepts, items, n, now, model, writes[..n], writes[n], rows[n]);
    }
  }

  lemma ItemsInit(items: seq<Item>, n: nat)
    requires n <= |items| && OnlySaves(items) && DistinctItems(items)
    ensures OnlySaves(items[..n]) && DistinctItems(items[..n])
  {
  }

  lemma AddPlannedWrite(concepts: map<string, Row>, items: seq<Item>, n: nat, now: int, model: string,
                        writes: seq<Write>, w: Write, row: Row)
    requires Keyed(concepts) && n + 1 == |items| && OnlySaves(items) && DistinctItems(items)
    requires Outcome(concepts, writes, 0).Applied?
    requires WrittenAll(concepts, writes) == AtomicAll(concepts, items[..n], now, model)
    requires PlannedAt(concepts, items[n], now, model, w, row)
    ensures Outcome(concepts, writes + [w], 0).Applied?
    ensures WrittenAll(concepts, writes + [w]) == AtomicAll(concepts, items, now, model)
  {
    var before := WrittenAll(concepts, writes);
    forall item | item in items[..n] ensures ItemId(item) != ItemId(items[n]) {
      var i :| 0 <= i < n && items[i] == item;
    }
    AtomicElsewhere(concepts, items[..n], now, model, ItemId(items[n]));
    BatchKeepsKeys(concepts, writes);
    StoredRow(before, items[n], w, row, now, model);
    BatchSnoc(concepts, writes, w);
  }

  lemma StoredRow(before: map<string, Row>, item: Item, w: Write, row: Row, now: int, model: string)
    requires item.SaveItem? && Keyed(before)
    requires PlanItem(item, Find(before, ItemId(item)), now, model) == Submits(w, row)
    ensures Applies(before, w) && (w.Update? ==> HasFields(w.fields))
    ensures Written(before, w) == before[ItemId(item) := row]
  {
    PlanIsStored(item.entry, item.key, Find(before, item.key), item.auto, now, model, before);
  }
}
