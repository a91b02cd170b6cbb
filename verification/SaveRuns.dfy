/**
 Runs of saves and re-embeddings: what one committed save does to the row it finds, and what
 such runs never lose.
 */
module SaveRuns {
  import opened Wrappers
  import opened Rows
  import opened Planning
  import opened Concurrency
  import opened SavedColumns

  // ------------------------------------------- what one save does to a row

  /** The row checked by a re-embedding has not been deleted and created anew. */
  ghost predicate SameCheckedLife(s: System, cl: Client) {
    cl.call.Reembed? && cl.check.Some? ==> cl.check.value.incarnation == Life(s, cl.call.id)
  }

  /** Every row is left alone or becomes what its save plans from it as it is at the commit. */
  ghost predicate SavedFrom(s: System, s': System, cl: Client, id: string, model: string) {
    || Find(s'.concepts, id) == Find(s.concepts, id)
    || exists k :: 0 <= k < |cl.items| && SavesRow(s, s', cl.items[k], cl.now, id, model)
  }

  ghost predicate SavesRow(s: System, s': System, item: Item, now: int, id: string, model: string) {
    && item.SaveItem? && item.key == id
    && PlanOf(item.entry, id, Find(s.concepts, id), item.auto, now, model).Ok?
    && Find(s'.concepts, id) == Some(PlanOf(item.entry, id, Find(s.concepts, id), item.auto, now, model).value.row)
  }

  ghost predicate OnlySaves(items: seq<Item>) {
    forall k :: 0 <= k < |items| ==> items[k].SaveItem?
  }

  lemma SaveSavesRow(s: System, s': System, c: nat, id: string, model: string)
    requires Inv(s, model) && CommitStep(s, s', c, model) && !s.clients[c].call.Remove?
    requires OnlySaves(s.clients[c].items) && SameLives(s, s.clients[c], model)
    ensures SavedFrom(s, s', s.clients[c], id, model)
    ensures forall k :: 0 <= k < |s.clients[c].items| && ItemId(s.clients[c].items[k]) == id ==>
      SavesRow(s, s', s.clients[c].items[k], s.clients[c].now, id, model)
  {
    var cl := s.clients[c];
    forall k | 0 <= k < |cl.items| && ItemId(cl.items[k]) == id
      ensures SavesRow(s, s', cl.items[k], cl.now, id, model)
    {
      assert !PlanAt(cl, k, model).Refused?;
      CommittedReadIsCurrent(s, s', c, k, model);
    }
    if forall item :: item in cl.items ==> ItemId(item) != id {
      OtherRowsStay(s, s', c, id, model);
    } else {
      var item :| item in cl.items && ItemId(item) == id;
      var k :| 0 <= k < |cl.items| && cl.items[k] == item;
      assert SavesRow(s, s', cl.items[k], cl.now, id, model);
    }
  }

  /** A committed save stores its entry, column by column, over the row as it is at the commit. */
  lemma CommitSavesEntry(s: System, s': System, c: nat, k: nat, model: string)
    requires Inv(s, model) && CommitStep(s, s', c, model) && !s.clients[c].call.Remove?
    requires OnlySaves(s.clients[c].items) && SameLives(s, s.clients[c], model) && k < |s.clients[c].items|
    ensures
      var cl, item := s.clients[c], s.clients[c].items[k];
      && item.key in s'.concepts && Acceptable(item.entry, Find(s.concepts, item.key), item.auto)
      && IsSavedRow(item.entry, item.key, Find(s.concepts, item.key), item.auto, cl.now, model, s'.concepts[item.key])
  {
    var cl, item := s.clients[c], s.clients[c].items[k];
    var existing := Find(s.concepts, item.key);
    SaveSavesRow(s, s', c, item.key, model);
    assert SavesRow(s, s', item, cl.now, item.key, model);
    PlanSucceedsExactly(item.entry, item.key, existing, item.auto, cl.now, model);
    PlanSavesColumns(item.entry, item.key, existing, item.auto, cl.now, model);
  }

  /** A committed save keeps every tag of the row it finds and adds its own. */
  lemma SaveKeepsTags(s: System, s': System, item: Item, now: int, id: string, model: string)
    requires SavesRow(s, s', item, now, id, model)
    ensures id in s'.concepts
    ensures id in s.concepts ==> forall t :: t in s.concepts[id].tags ==> t in s'.concepts[id].tags
    ensures item.entry.tags.Some? ==> forall t :: t in item.entry.tags.value ==> t in s'.concepts[id].tags
  {
    PlanMergesTags(item.entry, id, Find(s.concepts, id), item.auto, now, model);
  }

  /** Saves without `overwrite`, and re-embeddings without it, whose checked row is still alive. */
  ghost predicate Careful(cl: Client) {
    && (cl.call.Batch? ==> forall k :: 0 <= k < |cl.items| ==> cl.items[k].SaveItem? && !cl.items[k].entry.overwrite)
    && (cl.call.Reembed? ==> !cl.call.overwrite)
  }

  /** Authored content survives the commit of a careful client, re-embedding included. */
  lemma CarefulCommitKeepsAuthors(s: System, s': System, c: nat, id: string, rep: Representation, model: string)
    requires Inv(s, model) && CommitStep(s, s', c, model) && !s.clients[c].call.Remove?
    requires Careful(s.clients[c]) && SameLives(s, s.clients[c], model) && SameCheckedLife(s, s.clients[c])
    requires id in s.concepts && Authored(s.concepts[id], rep)
    ensures id in s'.concepts && Authored(s'.concepts[id], rep)
  {
    var cl := s.clients[c];
    SaveSavesRow(s, s', c, id, model);
    if k :| 0 <= k < |cl.items| && SavesRow(s, s', cl.items[k], cl.now, id, model) {
      var entry := cl.items[k].entry;
      if cl.call.Reembed? && rep == Vector {
        ReembedFindsCheckedRow(s, cl, k, id, model);
      }
      PlanRespectsAuthors(entry, id, s.concepts[id], cl.items[k].auto, cl.now, model, rep);
    }
  }

  /** A re-embedding only commits over the very row it checked. */
  lemma ReembedFindsCheckedRow(s: System, cl: Client, k: nat, id: string, model: string)
    requires ClientHolds(s, cl, model) && cl.call.Reembed? && SameCheckedLife(s, cl)
    requires k < |cl.items| && cl.items[k].key == id && id in s.concepts
    requires PlanOf(cl.items[k].entry, id, Some(s.concepts[id]), cl.items[k].auto, cl.now, model).Ok?
    ensures cl.check.Some? && cl.check.value.row == Some(s.concepts[id])
    ensures !Authored(s.concepts[id], Vector) || cl.call.overwrite
  {
  }

  // -------------------------------------------- runs in which nothing is deleted

  /** Every call is a save of some items or a re-embedding. */
  ghost predicate OnlySaveCalls(s: System) {
    forall c :: 0 <= c < |s.clients| ==> SaveCall(s.clients[c].call)
  }

  ghost predicate SaveCall(call: Call) {
    !call.Remove? && (call.Batch? ==> OnlySaves(call.batch))
  }

  /** Rows read are still there, in the life in which they were read. */
  ghost predicate ReadsCurrent(s: System) {
    forall c :: 0 <= c < |s.clients| ==> ClientCurrent(s, s.clients[c])
  }

  ghost predicate ReadCurrent(s: System, id: string, r: Read) {
    r.row.Some? ==> id in s.concepts && r.incarnation == Life(s, id)
  }

  ghost predicate ClientCurrent(s: System, cl: Client) {
    && |cl.seen| <= |cl.items|
    && (forall i :: 0 <= i < |cl.seen| ==> ReadCurrent(s, ItemId(cl.items[i]), cl.seen[i]))
    && (cl.call.Reembed? && cl.check.Some? ==> ReadCurrent(s, cl.call.id, cl.check.value))
  }

  /** Rows stay, in the life they have. */
  ghost predicate RowsStay(s: System, s': System) {
    forall id :: id in s.concepts ==> id in s'.concepts && Life(s', id) == Life(s, id)
  }

  lemma SaveItemsOf(s: System, cl: Client, model: string)
    requires ClientHolds(s, cl, model) && SaveCall(cl.call)
    ensures OnlySaves(cl.items)
  {
  }

  lemma CurrentReadsShareLives(s: System, cl: Client, model: string)
    requires ClientCurrent(s, cl) && |cl.seen| == |cl.items|
    ensures SameLives(s, cl, model)
  {
  }

  lemma SaveStepKeepsRows(s: System, s': System, c: nat, model: string)
    requires Inv(s, model) && OnlySaveCalls(s) && ReadsCurrent(s) && Acts(s, s', c, model)
    ensures RowsStay(s, s')
  {
    if CommitStep(s, s', c, model) {
      SaveItemsOf(s, s.clients[c], model);
      CurrentReadsShareLives(s, s.clients[c], model);
      forall id | id in s.concepts ensures id in s'.concepts && Life(s', id) == Life(s, id) {
        SaveSavesRow(s, s', c, id, model);
        CommitMovesRow(s, s', c, id, model);
      }
    } else {
      KeepsTables(s, s', c, model);
    }
  }

  lemma ClientStaysCurrent(s: System, s': System, cl: Client)
    requires ClientCurrent(s, cl) && RowsStay(s, s')
    ensures ClientCurrent(s', cl)
  {
  }

  lemma ReaderIsCurrent(s: System, s': System, c: nat, now: int, model: string)
    requires c < |s.clients| && ClientCurrent(s, s.clients[c]) && ReadStep(s, s', c, now, model)
    ensures ClientCurrent(s, s'.clients[c])
  {
  }

  lemma CheckingIsCurrent(s: System, s': System, c: nat, vector: Embedding, from: Representation, model: string)
    requires c < |s.clients| && ClientHolds(s, s.clients[c], model) && ClientCurrent(s, s.clients[c])
    requires CheckStep(s, s', c, vector, from, model)
    ensures ClientCurrent(s, s'.clients[c])
  {
  }

  lemma ActorIsCurrent(s: System, s': System, c: nat, model: string)
    requires Inv(s, model) && ReadsCurrent(s) && Acts(s, s', c, model)
    ensures c < |s.clients| == |s'.clients| && ClientCurrent(s, s'.clients[c])
  {
    assert ClientCurrent(s, s.clients[c]);
    if now :| ReadStep(s, s', c, now, model) {
      ReaderIsCurrent(s, s', c, now, model);
    } else if vector, from :| CheckStep(s, s', c, vector, from, model) {
      CheckingIsCurrent(s, s', c, vector, from, model);
    }
  }

  lemma SaveStepStaysCurrent(s: System, s': System, model: string)
    requires Inv(s, model) && OnlySaveCalls(s) && ReadsCurrent(s) && Next(s, s', model)
    ensures ReadsCurrent(s') && OnlySaveCalls(s') && RowsStay(s, s')
  {
    var c := StepActor(s, s', model);
    SaveStepKeepsRows(s, s', c, model);
    ActorIsCurrent(s, s', c, model);
    forall d | 0 <= d < |s'.clients| ensures ClientCurrent(s', s'.clients[d]) && SaveCall(s'.clients[d].call) {
      if d != c {
        assert s'.clients[d] == s.clients[d];
      }
      ClientStaysCurrent(s, s', s'.clients[d]);
    }
  }

  lemma BeginsCurrent(s: System)
    requires Init(s)
    ensures ReadsCurrent(s)
  {
    forall c | 0 <= c < |s.clients| ensures ClientCurrent(s, s.clients[c]) {
      assert Fresh(s.clients[c]);
    }
  }

  lemma {:induction false} SaveRunStaysCurrent(run: seq<System>, i: nat, model: string)
    requires IsRun(run, model) && OnlySaveCalls(run[0]) && i < |run|
    ensures ReadsCurrent(run[i]) && OnlySaveCalls(run[i])
  {
    if i == 0 {
      BeginsCurrent(run[0]);
    } else {
      SaveRunStaysCurrent(run, i - 1, model);
      NextStaysCurrent(run, i, model);
    }
  }

  lemma NextStaysCurrent(run: seq<System>, i: nat, model: string)
    requires IsRun(run, model) && 0 < i < |run| && ReadsCurrent(run[i - 1]) && OnlySaveCalls(run[i - 1])
    ensures ReadsCurrent(run[i]) && OnlySaveCalls(run[i])
  {
    RunStep(run, i, model);
    SaveStepStaysCurrent(run[i - 1], run[i], model);
  }

  /** The tags of a row, or none. */
  function TagsOf(concepts: map<string, Row>, id: string): set<string> {
    if id in concepts then set t | t in concepts[id].tags else {}
  }

  /** A step of such a run, with what is known before it. */
  ghost predicate SaveStep(s: System, s': System, model: string) {
    Inv(s, model) && OnlySaveCalls(s) && ReadsCurrent(s) && Next(s, s', model)
  }

  lemma RunTakesSaveStep(run: seq<System>, j: nat, model: string)
    requires IsRun(run, model) && OnlySaveCalls(run[0]) && 0 < j < |run|
    ensures SaveStep(run[j - 1], run[j], model)
  {
    SaveRunStaysCurrent(run, j - 1, model);
    RunStep(run, j, model);
  }

  lemma SaveStepKeepsTags(s: System, s': System, id: string, model: string)
    requires SaveStep(s, s', model)
    ensures TagsOf(s.concepts, id) <= TagsOf(s'.concepts, id)
  {
    var c := StepActor(s, s', model);
    if CommitStep(s, s', c, model) {
      var cl := s.clients[c];
      SaveItemsOf(s, cl, model);
      CurrentReadsShareLives(s, cl, model);
      SaveSavesRow(s, s', c, id, model);
      if k :| 0 <= k < |cl.items| && SavesRow(s, s', cl.items[k], cl.now, id, model) {
        SaveKeepsTags(s, s', cl.items[k], cl.now, id, model);
      }
    } else {
      KeepsTables(s, s', c, model);
    }
  }

  lemma TagsKeptAt(run: seq<System>, j: nat, id: string, model: string)
    requires IsRun(run, model) && OnlySaveCalls(run[0]) && 0 < j < |run|
    ensures TagsOf(run[j - 1].concepts, id) <= TagsOf(run[j].concepts, id)
  {
    RunTakesSaveStep(run, j, model);
    SaveStepKeepsTags(run[j - 1], run[j], id, model);
  }

  /** Where nothing is deleted or restored, no tag is ever lost, however the saves interleave. */
  lemma {:induction false} TagsAreNeverLost(run: seq<System>, i: nat, j: nat, id: string, model: string)
    requires IsRun(run, model) && OnlySaveCalls(run[0]) && i <= j < |run|
    ensures TagsOf(run[i].concepts, id) <= TagsOf(run[j].concepts, id)
  {
    if i < j {
      TagsAreNeverLost(run, i, j - 1, id, model);
      TagsKeptAt(run, j, id, model);
    }
  }

  /** The tags a save brings along. */
  function AddedTags(item: Item): set<string>
    requires item.SaveItem?
  {
    set t | t in item.entry.tags.GetOr([])
  }

  /** The tags a committed save adds are there ever after. */
  lemma AddedTagsStay(run: seq<System>, i: nat, j: nat, c: nat, k: nat, model: string)
    requires IsRun(run, model) && OnlySaveCalls(run[0]) && i < j < |run|
    requires CommitStep(run[i], run[i + 1], c, model) && k < |run[i].clients[c].items|
    ensures run[i].clients[c].items[k].SaveItem?
    ensures AddedTags(run[i].clients[c].items[k]) <= TagsOf(run[j].concepts, run[i].clients[c].items[k].key)
  {
    SaveRunStaysCurrent(run, i, model);
    RunKeepsInv(run, i, model);
    CommitAddsTags(run[i], run[i + 1], c, k, model);
    TagsAreNeverLost(run, i + 1, j, run[i].clients[c].items[k].key, model);
  }

  lemma CommitAddsTags(s: System, s': System, c: nat, k: nat, model: string)
    requires Inv(s, model) && OnlySaveCalls(s) && ReadsCurrent(s) && CommitStep(s, s', c, model)
    requires k < |s.clients[c].items|
    ensures s.clients[c].items[k].SaveItem?
    ensures AddedTags(s.clients[c].items[k]) <= TagsOf(s'.concepts, s.clients[c].items[k].key)
  {
    var cl := s.clients[c];
    var item := cl.items[k];
    SaveItemsOf(s, cl, model);
    CurrentReadsShareLives(s, cl, model);
    SaveSavesRow(s, s', c, item.key, model);
    SaveKeepsTags(s, s', item, cl.now, item.key, model);
  }

  ghost predicate CarefulCalls(s: System) {
    forall c :: 0 <= c < |s.clients| ==> CarefulCall(s.clients[c].call)
  }

  ghost predicate CarefulCall(call: Call) {
    && (call.Batch? ==> forall k :: 0 <= k < |call.batch| ==> call.batch[k].SaveItem? && !call.batch[k].entry.overwrite)
    && (call.Reembed? ==> !call.overwrite)
  }

  ghost predicate AuthoredAt(s: System, id: string, rep: Representation) {
    id in s.concepts && Authored(s.concepts[id], rep)
  }

  lemma CarefulCallsStay(s: System, s': System, c: nat)
    requires CarefulCalls(s) && c < |s.clients| == |s'.clients| && s'.clients[c].call == s.clients[c].call
    requires forall d :: 0 <= d < |s.clients| && d != c ==> s'.clients[d] == s.clients[d]
    ensures CarefulCalls(s')
  {
    forall d | 0 <= d < |s'.clients| ensures CarefulCall(s'.clients[d].call) {
      assert s'.clients[d].call == s.clients[d].call;
    }
  }

  lemma CarefulStepKeepsAuthors(s: System, s': System, id: string, rep: Representation, model: string)
    requires SaveStep(s, s', model) && CarefulCalls(s)
    requires AuthoredAt(s, id, rep)
    ensures CarefulCalls(s') && AuthoredAt(s', id, rep)
  {
    var c := StepActor(s, s', model);
    CarefulCallsStay(s, s', c);
    if CommitStep(s, s', c, model) {
      CarefulCommit(s, s', c, id, rep, model);
    } else {
      KeepsTables(s, s', c, model);
    }
  }

  lemma CarefulCommit(s: System, s': System, c: nat, id: string, rep: Representation, model: string)
    requires Inv(s, model) && CarefulCalls(s) && ReadsCurrent(s) && CommitStep(s, s', c, model)
    requires OnlySaveCalls(s) && AuthoredAt(s, id, rep)
    ensures AuthoredAt(s', id, rep)
  {
    var cl := s.clients[c];
    assert ClientHolds(s, cl, model) && ClientCurrent(s, cl) && CarefulCall(cl.call) && SaveCall(cl.call);
    CurrentReadsShareLives(s, cl, model);
    CarefulClient(s, cl, model);
    CarefulCommitKeepsAuthors(s, s', c, id, rep, model);
  }

  lemma CarefulClient(s: System, cl: Client, model: string)
    requires ClientHolds(s, cl, model) && ClientCurrent(s, cl) && CarefulCall(cl.call)
    requires cl.status.Running? && |cl.seen| == |cl.items|
    ensures Careful(cl) && SameCheckedLife(s, cl)
  {
  }

  lemma AuthorsKeptAt(run: seq<System>, j: nat, id: string, rep: Representation, model: string)
    requires IsRun(run, model) && OnlySaveCalls(run[0]) && 0 < j < |run|
    requires CarefulCalls(run[j - 1]) && AuthoredAt(run[j - 1], id, rep)
    ensures CarefulCalls(run[j]) && AuthoredAt(run[j], id, rep)
  {
    RunTakesSaveStep(run, j, model);
    CarefulStepKeepsAuthors(run[j - 1], run[j], id, rep, model);
  }

  /**
   In every run of saves, conversions and re-embeddings without `overwrite`, authored content
   is never replaced by derived or LLM content, races included.
   */
  lemma {:induction false} AuthorsAreNeverReplaced(run: seq<System>, i: nat, j: nat, id: string, rep: Representation,
                                                   model: string)
    requires IsRun(run, model) && OnlySaveCalls(run[0]) && i <= j < |run|
    requires CarefulCalls(run[i]) && AuthoredAt(run[i], id, rep)
    ensures CarefulCalls(run[j]) && AuthoredAt(run[j], id, rep)
  {
    if i < j {
      AuthorsAreNeverReplaced(run, i, j - 1, id, rep, model);
      AuthorsKeptAt(run, j, id, rep, model);
    }
  }
}
