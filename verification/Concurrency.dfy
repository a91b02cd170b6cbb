/**
 Concurrent clients of one store. A client reads its rows one at a time, plans a write for
 each, submits all writes in one transaction and starts over if another client was faster.
 Every read and every transaction is one step; the steps of all clients interleave freely.
 */
module Concurrency {
  import opened Wrappers
  import opened Rows
  import opened Planning
  import opened Restoring

  const MAX_WRITE_ATTEMPTS: nat := 8

  // ------------------------------------------------------------ one client

  datatype Item =
    | SaveItem(entry: SaveEntry, key: string, auto: Option<AutoVector>)
    | RestoreItem(record: RestoreRecord, policy: ConflictPolicy)

  function ItemId(item: Item): string {
    if item.SaveItem? then item.key else item.record.id
  }

  /** What a client decides about one item from the row it read. */
  datatype Planned =
    | Refused
    | Omitted
    | Submits(write: Write, row: Row)

  function PlanItem(item: Item, existing: Option<Row>, now: int, model: string): Planned {
    match item
    case SaveItem(entry, id, auto) =>
      (match PlanOf(entry, id, existing, auto, now, model)
       case Err(_) => Refused
       case Ok(p) => Submits(p.write, p.row))
    case RestoreItem(record, policy) =>
      (match Decide(record, existing, policy, model)
       case Skipped(_) => Omitted
       case Restores(w, row) => Submits(w, row))
  }

  /** A row as read, and which life of its id it belonged to. */
  datatype Read = Read(row: Option<Row>, incarnation: nat)

  /** `Reembed` is the part of a re-embedding call that concerns one concept. */
  datatype Call =
    | Batch(batch: seq<Item>)
    | Remove(id: string, scope: Option<string>)
    | Reembed(id: string, namespace: string, overwrite: bool)

  datatype Status = Checking | Running | Committed | Stopped

  datatype Client = Client(
    call: Call,
    items: seq<Item>,
    check: Option<Read>,
    attempt: nat,
    now: int,
    seen: seq<Read>,
    status: Status)

  function Start(call: Call): Client {
    match call
    case Batch(items) => Client(call, items, None, 1, 0, [], Running)
    case Remove(_, _) => Client(call, [], None, 1, 0, [], Running)
    case Reembed(_, _, _) => Client(call, [], None, 1, 0, [], Checking)
  }

  function PlanAt(cl: Client, i: nat, model: string): Planned
    requires i < |cl.seen| <= |cl.items|
  {
    PlanItem(cl.items[i], cl.seen[i].row, cl.now, model)
  }

  /** The writes planned from the first `n` reads. */
  function WritesUpTo(cl: Client, n: nat, model: string): seq<Write>
    requires n <= |cl.seen| <= |cl.items|
  {
    if n == 0 then []
    else
      var before := WritesUpTo(cl, n - 1, model);
      match PlanAt(cl, n - 1, model)
      case Submits(w, _) => before + [w]
      case _ => before
  }

  function Submission(cl: Client, model: string): seq<Write>
    requires |cl.seen| <= |cl.items|
  {
    if cl.call.Remove? then [Delete(cl.call.id, cl.call.scope)] else WritesUpTo(cl, |cl.seen|, model)
  }

  /** Whether a failed batch is not tried again. */
  predicate GivesUp(cl: Client, failed: nat) {
    || cl.call.Remove?
    || cl.attempt >= MAX_WRITE_ATTEMPTS
    || (failed < |cl.items| && cl.items[failed].SaveItem? && cl.items[failed].entry.expectedVersion.Some?)
  }

  // ------------------------------------------------------------ the system

  /** `lives` counts, per id, how often it was inserted. */
  datatype System = System(
    concepts: map<string, Row>,
    vectors: map<string, VectorRow>,
    lives: map<string, nat>,
    clients: seq<Client>)

  function Life(s: System, id: string): nat {
    if id in s.lives then s.lives[id] else 0
  }

  function InsertedIds(ws: seq<Write>): set<string> {
    set w | w in ws && w.Insert? :: w.row.id
  }

  function NewLives(s: System, ws: seq<Write>): map<string, nat> {
    map id | id in s.lives.Keys + InsertedIds(ws) :: Life(s, id) + if id in InsertedIds(ws) then 1 else 0
  }

  ghost predicate ReadStep(s: System, s': System, c: nat, now: int, model: string) {
    && c < |s.clients| && s.clients[c].status.Running?
    && |s.clients[c].seen| < |s.clients[c].items|
    && var cl := s.clients[c];
       var item := cl.items[|cl.seen|];
       var at := if cl.seen == [] then now else cl.now;
       var row := Find(s.concepts, ItemId(item));
       s' == s.(clients := s.clients[c :=
         if PlanItem(item, row, at, model).Refused? then cl.(status := Stopped)
         else cl.(now := at, seen := cl.seen + [Read(row, Life(s, ItemId(item)))])])
  }

  /** All rows are read: submit the batch. */
  ghost predicate Ready(s: System, c: nat) {
    c < |s.clients| && s.clients[c].status.Running? && |s.clients[c].seen| == |s.clients[c].items|
  }

  ghost predicate CommitStep(s: System, s': System, c: nat, model: string) {
    && Ready(s, c)
    && var ws := Submission(s.clients[c], model);
       && Outcome(s.concepts, ws, 0).Applied?
       && s' == System(WrittenAll(s.concepts, ws), IndexWrittenAll(s.vectors, ws), NewLives(s, ws),
                       s.clients[c := s.clients[c].(status := Committed)])
  }

  ghost predicate ConflictStep(s: System, s': System, c: nat, model: string) {
    && Ready(s, c)
    && var ws := Submission(s.clients[c], model);
       var outcome := Outcome(s.concepts, ws, 0);
       && outcome.Failed?
       && s' == s.(clients := s.clients[c :=
            if GivesUp(s.clients[c], outcome.index) then s.clients[c].(status := Stopped)
            else s.clients[c].(attempt := s.clients[c].attempt + 1, seen := [])])
  }

  /** The inner save of a re-embedding: it replaces the vector, whoever made it. */
  function ReembedEntry(namespace: string, version: int, vector: Embedding, from: Representation,
                        model: string): SaveEntry {
    SaveEntry(Some(namespace), Some(version), None, None, Some(vector), None, Source(None, None, None),
              map[Vector := Provenance(Derived, Some(from), Some(model), None, None)], true, Keep, Keep)
  }

  function InnerSave(call: Call, version: int, vector: Embedding, from: Representation, model: string): Item
    requires call.Reembed?
  {
    SaveItem(ReembedEntry(call.namespace, version, vector, from, model), call.id, None)
  }

  /** A re-embedding looks at a row and goes on only if its vector may be replaced. */
  ghost predicate CheckStep(s: System, s': System, c: nat, vector: Embedding, from: Representation, model: string) {
    && c < |s.clients| && s.clients[c].status.Checking? && s.clients[c].call.Reembed?
    && var cl := s.clients[c];
       var id := cl.call.id;
       var row := Find(s.concepts, id);
       var passes := row.Some? && row.value.namespace == cl.call.namespace && row.value.embedding.Some?
                     && (!Authored(row.value, Vector) || cl.call.overwrite);
       s' == s.(clients := s.clients[c :=
         if passes then
           cl.(items := [InnerSave(cl.call, row.value.version, vector, from, model)],
               check := Some(Read(row, Life(s, id))), status := Running)
         else cl.(status := Stopped)])
  }

  /** One step of client `c`. */
  ghost predicate Acts(s: System, s': System, c: nat, model: string) {
    || (exists now :: ReadStep(s, s', c, now, model))
    || CommitStep(s, s', c, model)
    || ConflictStep(s, s', c, model)
    || (exists vector, from :: CheckStep(s, s', c, vector, from, model))
  }

  ghost predicate Next(s: System, s': System, model: string) {
    exists c: nat :: Acts(s, s', c, model)
  }

  ghost predicate DistinctItems(items: seq<Item>) {
    forall i, j :: 0 <= i < j < |items| ==> ItemId(items[i]) != ItemId(items[j])
  }

  /** Any store with an agreeing index and any clients that have not begun. */
  ghost predicate Init(s: System) {
    && Keyed(s.concepts) && s.vectors == IndexOf(s.concepts)
    && forall c :: 0 <= c < |s.clients| ==> Fresh(s.clients[c])
  }

  ghost predicate Fresh(cl: Client) {
    cl == Start(cl.call) && (cl.call.Batch? ==> DistinctItems(cl.call.batch))
  }

  /** State `i + 1` of the run follows from state `i`. */
  ghost predicate StepAt(run: seq<System>, i: nat, model: string) {
    i + 1 < |run| && Next(run[i], run[i + 1], model)
  }

  ghost predicate IsRun(run: seq<System>, model: string) {
    && run != [] && Init(run[0])
    && forall i: nat :: i + 1 < |run| ==> StepAt(run, i, model)
  }

  // ------------------------------------------------------------- invariant

  /** What is known of a row read earlier: within its life, an equal version is the same row. */
  ghost predicate ReadHolds(s: System, id: string, r: Read) {
    && r.incarnation <= Life(s, id)
    && (r.row.Some? && r.incarnation == Life(s, id) && id in s.concepts ==>
          && r.row.value.version <= s.concepts[id].version
          && (r.row.value.version == s.concepts[id].version ==> s.concepts[id] == r.row.value))
  }

  ghost predicate ClientHolds(s: System, cl: Client, model: string) {
    && |cl.seen| <= |cl.items| && DistinctItems(cl.items)
    && (forall i :: 0 <= i < |cl.seen| ==>
          && ReadHolds(s, ItemId(cl.items[i]), cl.seen[i])
          && !PlanAt(cl, i, model).Refused?
          && (cl.seen[i].row.Some? ==> cl.seen[i].row.value.id == ItemId(cl.items[i])))
    && (cl.check.Some? ==> cl.check.value.row.Some?)
    && (cl.call.Batch? ==> cl.items == cl.call.batch)
    && (cl.call.Remove? || cl.status.Checking? ==> cl.items == [])
    && (cl.call.Reembed? ==> cl.items == [] || (cl.check.Some? && ReembedHolds(s, cl, model)))
  }

  /** The inner save of a re-embedding is tied to the row that was checked. */
  ghost predicate ReembedHolds(s: System, cl: Client, model: string)
    requires cl.call.Reembed? && cl.check.Some?
  {
    var r := cl.check.value;
    && ReadHolds(s, cl.call.id, r)
    && r.row.Some? && (!Authored(r.row.value, Vector) || cl.call.overwrite)
    && exists vector, from ::
         cl.items == [InnerSave(cl.call, r.row.value.version, vector, from, model)]
  }

  ghost predicate Inv(s: System, model: string) {
    && Keyed(s.concepts) && s.vectors == IndexOf(s.concepts)
    && forall c :: 0 <= c < |s.clients| ==> ClientHolds(s, s.clients[c], model)
  }

  // ---------------------------------------------------- what a step does to a row

  /** Left alone, updated by one version, deleted, or inserted into a new life. */
  ghost predicate RowMoves(before: Option<Row>, life: nat, after: Option<Row>, life': nat) {
    || (after == before && life' == life)
    || (&& before.Some? && after.Some? && life' == life
        && after.value.version == before.value.version + 1
        && after.value.namespace == before.value.namespace
        && after.value.createdAt == before.value.createdAt)
    || (before.Some? && after.None? && life' == life)
    || (before.None? && after.Some? && life' == life + 1)
  }

  ghost predicate RowStep(s: System, s': System, id: string) {
    RowMoves(Find(s.concepts, id), Life(s, id), Find(s'.concepts, id), Life(s', id))
  }

  /** A planned write targets its item's row and, as an update, raises the version by one. */
  ghost predicate GoodWrite(w: Write, id: string) {
    && WriteId(w) == id
    && (w.Update? ==> w.fields.version == Set(w.expectedVersion + 1))
  }

  lemma PlanIsGood(item: Item, existing: Option<Row>, now: int, model: string)
    requires PlanItem(item, existing, now, model).Submits?
    requires existing.Some? ==> existing.value.id == ItemId(item)
    ensures GoodWrite(PlanItem(item, existing, now, model).write, ItemId(item))
    ensures !PlanItem(item, existing, now, model).write.Delete?
    ensures existing.None? <==> PlanItem(item, existing, now, model).write.Insert?
    ensures existing.Some? ==> PlanItem(item, existing, now, model).write.expectedVersion == existing.value.version
  {
  }

  /** The i-th item's write, if it has one. */
  ghost predicate FromItem(cl: Client, w: Write, i: nat, model: string) {
    && i < |cl.seen| <= |cl.items|
    && PlanAt(cl, i, model).Submits? && PlanAt(cl, i, model).write == w
  }

  /** `ws` are exactly the writes of the first `n` items. */
  ghost predicate WritesOf(cl: Client, ws: seq<Write>, n: nat, model: string) {
    && (forall w :: w in ws ==> exists i: nat :: i < n && FromItem(cl, w, i, model))
    && (forall i: nat, w :: i < n && FromItem(cl, w, i, model) ==> w in ws)
    && DistinctTargets(ws)
  }

  /** The rows a client read are those of its items. */
  ghost predicate ReadsOwnRows(cl: Client) {
    && |cl.seen| <= |cl.items| && DistinctItems(cl.items)
    && forall i :: 0 <= i < |cl.seen| && cl.seen[i].row.Some? ==> cl.seen[i].row.value.id == ItemId(cl.items[i])
  }

  lemma {:induction false} WritesComeFromItems(cl: Client, n: nat, model: string)
    requires ReadsOwnRows(cl) && n <= |cl.seen|
    ensures WritesOf(cl, WritesUpTo(cl, n, model), n, model)
  {
    if n == 0 {
      assert WritesUpTo(cl, 0, model) == [];
    } else {
      WritesComeFromItems(cl, n - 1, model);
      WritesSnoc(cl, n - 1, model);
      var p := PlanAt(cl, n - 1, model);
      NextWrites(cl, n - 1, WritesUpTo(cl, n - 1, model), p, WritesUpTo(cl, n, model), model);
    }
  }

  lemma WritesSnoc(cl: Client, m: nat, model: string)
    requires m < |cl.seen| <= |cl.items|
    ensures WritesUpTo(cl, m + 1, model)
      == WritesUpTo(cl, m, model) + if PlanAt(cl, m, model).Submits? then [PlanAt(cl, m, model).write] else []
  {
  }

  lemma NextWrites(cl: Client, m: nat, before: seq<Write>, p: Planned, after: seq<Write>, model: string)
    requires ReadsOwnRows(cl) && m < |cl.seen| && WritesOf(cl, before, m, model)
    requires p == PlanAt(cl, m, model) && after == before + if p.Submits? then [p.write] else []
    ensures WritesOf(cl, after, m + 1, model)
  {
    if p.Submits? {
      OneMoreWrite(cl, m, before, p.write, model);
    } else {
      NoMoreWrite(cl, m, before, model);
    }
  }

  lemma NoMoreWrite(cl: Client, m: nat, before: seq<Write>, model: string)
    requires m < |cl.seen| <= |cl.items|
    requires WritesOf(cl, before, m, model) && !PlanAt(cl, m, model).Submits?
    ensures WritesOf(cl, before, m + 1, model)
  {
    forall w | w in before ensures exists i: nat :: i < m + 1 && FromItem(cl, w, i, model) {
      var i: nat :| i < m && FromItem(cl, w, i, model);
    }
  }

  lemma OneMoreWrite(cl: Client, m: nat, before: seq<Write>, w: Write, model: string)
    requires ReadsOwnRows(cl) && WritesOf(cl, before, m, model) && FromItem(cl, w, m, model)
    ensures WritesOf(cl, before + [w], m + 1, model)
  {
    PlanIsGood(cl.items[m], cl.seen[m].row, cl.now, model);
    forall v | v in before
      ensures WriteId(v) != WriteId(w)
      ensures exists i: nat :: i < m + 1 && FromItem(cl, v, i, model)
    {
      var i: nat :| i < m && FromItem(cl, v, i, model);
      PlanIsGood(cl.items[i], cl.seen[i].row, cl.now, model);
    }
  }

  ghost predicate GoodBatch(ws: seq<Write>) {
    && DistinctTargets(ws)
    && forall w :: w in ws ==> GoodWrite(w, WriteId(w))
  }

  lemma SubmissionIsGood(s: System, cl: Client, model: string)
    requires ClientHolds(s, cl, model)
    ensures GoodBatch(Submission(cl, model))
  {
    if !cl.call.Remove? {
      var ws := WritesUpTo(cl, |cl.seen|, model);
      WritesComeFromItems(cl, |cl.seen|, model);
      forall w | w in ws ensures GoodWrite(w, WriteId(w)) {
        var i: nat :| i < |cl.seen| && FromItem(cl, w, i, model);
        PlanIsGood(cl.items[i], cl.seen[i].row, cl.now, model);
      }
    }
  }

  /** What an applied batch makes of one row. */
  lemma BatchMovesRow(s: System, ws: seq<Write>, id: string)
    requires GoodBatch(ws) && Outcome(s.concepts, ws, 0).Applied?
    ensures RowMoves(Find(s.concepts, id), Life(s, id), Find(WrittenAll(s.concepts, ws), id),
                     Life(s, id) + if id in InsertedIds(ws) then 1 else 0)
    ensures forall w :: w in ws && WriteId(w) == id ==>
      Applies(s.concepts, w) && Find(WrittenAll(s.concepts, ws), id) == Left(s.concepts, w)
  {
    DistinctBatch(s.concepts, ws);
    if w :| w in ws && WriteId(w) == id {
      assert Find(WrittenAll(s.concepts, ws), id) == Left(s.concepts, w);
      forall v | v in ws && WriteId(v) == id ensures v == w {
        SameTarget(ws, v, w);
      }
      assert id in InsertedIds(ws) <==> w.Insert?;
      assert GoodWrite(w, id);
    } else {
      assert id !in InsertedIds(ws);
    }
  }

  lemma SameTarget(ws: seq<Write>, v: Write, w: Write)
    requires DistinctTargets(ws) && v in ws && w in ws && WriteId(v) == WriteId(w)
    ensures v == w
  {
  }

  /** Versions rise by exactly one per committed update; namespaces and creation times stay. */
  lemma StepMovesRow(s: System, s': System, id: string, model: string)
    requires Inv(s, model) && Next(s, s', model)
    ensures RowStep(s, s', id)
  {
    var c: nat :| Acts(s, s', c, model);
    if CommitStep(s, s', c, model) {
      CommitMovesRow(s, s', c, id, model);
    } else {
      KeepsTables(s, s', c, model);
    }
  }

  lemma KeepsTables(s: System, s': System, c: nat, model: string)
    requires Acts(s, s', c, model) && !CommitStep(s, s', c, model)
    ensures s'.concepts == s.concepts && s'.vectors == s.vectors && s'.lives == s.lives
  {
    if now :| ReadStep(s, s', c, now, model) {
    } else if vector, from :| CheckStep(s, s', c, vector, from, model) {
    }
  }

  lemma CommitMovesRow(s: System, s': System, c: nat, id: string, model: string)
    requires Inv(s, model) && CommitStep(s, s', c, model)
    ensures RowStep(s, s', id)
  {
    var ws := Submission(s.clients[c], model);
    SubmissionIsGood(s, s.clients[c], model);
    BatchMovesRow(s, ws, id);
    assert s'.lives == NewLives(s, ws);
    assert Life(s', id) == Life(s, id) + if id in InsertedIds(ws) then 1 else 0;
  }

  // ------------------------------------------------- the invariant is kept

  lemma ReadStillHolds(s: System, s': System, id: string, r: Read)
    requires RowStep(s, s', id) && ReadHolds(s, id, r)
    ensures ReadHolds(s', id, r)
  {
  }

  lemma ClientStillHolds(s: System, s': System, cl: Client, model: string)
    requires ClientHolds(s, cl, model) && forall id :: RowStep(s, s', id)
    ensures ClientHolds(s', cl, model)
  {
    forall i | 0 <= i < |cl.seen| ensures ReadHolds(s', ItemId(cl.items[i]), cl.seen[i]) {
      ReadStillHolds(s, s', ItemId(cl.items[i]), cl.seen[i]);
    }
    if cl.call.Reembed? && cl.items != [] {
      ReadStillHolds(s, s', cl.call.id, cl.check.value);
    }
  }

  /** A fresh read is as good as it gets. */
  lemma FreshReadHolds(s: System, id: string)
    ensures ReadHolds(s, id, Read(Find(s.concepts, id), Life(s, id)))
  {
  }

  lemma ReadKeepsClient(s: System, cl: Client, now: int, model: string)
    requires ClientHolds(s, cl, model) && Keyed(s.concepts) && |cl.seen| < |cl.items|
    requires var id := ItemId(cl.items[|cl.seen|]);
      !PlanItem(cl.items[|cl.seen|], Find(s.concepts, id), now, model).Refused?
    requires cl.seen == [] || cl.now == now
    ensures var id := ItemId(cl.items[|cl.seen|]);
      ClientHolds(s, cl.(now := now, seen := cl.seen + [Read(Find(s.concepts, id), Life(s, id))]), model)
  {
    var id := ItemId(cl.items[|cl.seen|]);
    var next := cl.(now := now, seen := cl.seen + [Read(Find(s.concepts, id), Life(s, id))]);
    FreshReadHolds(s, id);
    forall i | 0 <= i < |next.seen| ensures PlanAt(next, i, model) == if i < |cl.seen| then PlanAt(cl, i, model)
      else PlanItem(cl.items[i], Find(s.concepts, id), now, model)
    {
      assert i < |cl.seen| ==> next.seen[i] == cl.seen[i];
    }
  }

  lemma StartHolds(s: System, cl: Client, model: string)
    requires Fresh(cl)
    ensures ClientHolds(s, cl, model)
  {
  }

  lemma CheckKeepsClient(s: System, cl: Client, vector: Embedding, from: Representation, model: string)
    requires ClientHolds(s, cl, model) && cl.call.Reembed? && cl.seen == []
    requires var row := Find(s.concepts, cl.call.id);
      row.Some? && (!Authored(row.value, Vector) || cl.call.overwrite)
    ensures var row := Find(s.concepts, cl.call.id);
      ClientHolds(s,
        cl.(items := [InnerSave(cl.call, row.value.version, vector, from, model)],
            check := Some(Read(row, Life(s, cl.call.id))), status := Running), model)
  {
    FreshReadHolds(s, cl.call.id);
  }

  lemma ReaderHolds(s: System, s': System, c: nat, now: int, model: string)
    requires Inv(s, model) && ReadStep(s, s', c, now, model)
    ensures ClientHolds(s, s'.clients[c], model)
  {
    var cl := s.clients[c];
    if s'.clients[c].status.Running? {
      ReadKeepsClient(s, cl, if cl.seen == [] then now else cl.now, model);
    }
  }

  lemma CheckingHolds(s: System, s': System, c: nat, vector: Embedding, from: Representation, model: string)
    requires Inv(s, model) && CheckStep(s, s', c, vector, from, model)
    ensures ClientHolds(s, s'.clients[c], model)
  {
    if s'.clients[c].status.Running? {
      CheckKeepsClient(s, s.clients[c], vector, from, model);
    }
  }

  /** Whoever acts, the acting client stays in order. */
  lemma ActorHolds(s: System, s': System, c: nat, model: string)
    requires Inv(s, model) && Acts(s, s', c, model)
    ensures c < |s.clients| == |s'.clients| && ClientHolds(s, s'.clients[c], model)
  {
    if now :| ReadStep(s, s', c, now, model) {
      ReaderHolds(s, s', c, now, model);
    } else if vector, from :| CheckStep(s, s', c, vector, from, model) {
      CheckingHolds(s, s', c, vector, from, model);
    } else {
      SubmitterHolds(s, s', c, model);
    }
  }

  lemma SubmitterHolds(s: System, s': System, c: nat, model: string)
    requires Inv(s, model) && (CommitStep(s, s', c, model) || ConflictStep(s, s', c, model))
    ensures c < |s.clients| == |s'.clients| && ClientHolds(s, s'.clients[c], model)
  {
    assert ClientHolds(s, s.clients[c], model);
  }

  /** The acting client of a step; all others are as they were. */
  lemma StepActor(s: System, s': System, model: string) returns (c: nat)
    requires Next(s, s', model)
    ensures c < |s.clients| == |s'.clients|
    ensures Acts(s, s', c, model)
    ensures forall d :: 0 <= d < |s.clients| && d != c ==> s'.clients[d] == s.clients[d]
    ensures s'.clients[c].call == s.clients[c].call
    ensures !s.clients[c].status.Committed? && !s.clients[c].status.Stopped?
  {
    c :| Acts(s, s', c, model);
    if now :| ReadStep(s, s', c, now, model) {
    } else if vector, from :| CheckStep(s, s', c, vector, from, model) {
    }
  }

  lemma TablesHold(s: System, s': System, c: nat, model: string)
    requires Inv(s, model)
    requires Acts(s, s', c, model)
    ensures Keyed(s'.concepts) && s'.vectors == IndexOf(s'.concepts)
  {
    if CommitStep(s, s', c, model) {
      BatchKeepsKeys(s.concepts, Submission(s.clients[c], model));
      IndexFollowsBatch(s.concepts, Submission(s.clients[c], model));
    } else {
      KeepsTables(s, s', c, model);
    }
  }

  lemma InvStep(s: System, s': System, model: string)
    requires Inv(s, model) && Next(s, s', model)
    ensures Inv(s', model)
  {
    var c := StepActor(s, s', model);
    forall id ensures RowStep(s, s', id) {
      StepMovesRow(s, s', id, model);
    }
    TablesHold(s, s', c, model);
    ActorHolds(s, s', c, model);
    forall d | 0 <= d < |s'.clients| ensures ClientHolds(s', s'.clients[d], model) {
      assert ClientHolds(s, s'.clients[d], model);
      ClientStillHolds(s, s', s'.clients[d], model);
    }
  }

  /** In every reachable state the index agrees with the rows and every read is still meaningful. */
  lemma {:induction false} RunKeepsInv(run: seq<System>, i: nat, model: string)
    requires IsRun(run, model) && i < |run|
    ensures Inv(run[i], model)
  {
    if i == 0 {
      forall c | 0 <= c < |run[0].clients| ensures ClientHolds(run[0], run[0].clients[c], model) {
        StartHolds(run[0], run[0].clients[c], model);
      }
    } else {
      RunKeepsInv(run, i - 1, model);
      assert StepAt(run, i - 1, model);
      InvStep(run[i - 1], run[i], model);
    }
  }

  lemma RunStep(run: seq<System>, j: nat, model: string)
    requires IsRun(run, model) && 0 < j < |run|
    ensures Inv(run[j - 1], model) && Next(run[j - 1], run[j], model)
  {
    RunKeepsInv(run, j - 1, model);
    assert StepAt(run, j - 1, model);
  }

  // ------------------------------------------------------- serializability

  /** The effect of planning and storing the items one after the other, from the current rows. */
  function AtomicAll(concepts: map<string, Row>, items: seq<Item>, now: int, model: string): map<string, Row> {
    if items == [] then concepts
    else
      var before := AtomicAll(concepts, items[..|items| - 1], now, model);
      var item := items[|items| - 1];
      match PlanItem(item, Find(before, ItemId(item)), now, model)
      case Submits(_, row) => before[ItemId(item) := row]
      case _ => before
  }

  lemma {:induction false} AtomicElsewhere(concepts: map<string, Row>, items: seq<Item>, now: int, model: string,
                                           id: string)
    requires forall item :: item in items ==> ItemId(item) != id
    ensures Find(AtomicAll(concepts, items, now, model), id) == Find(concepts, id)
  {
    if items != [] {
      AtomicElsewhere(concepts, items[..|items| - 1], now, model, id);
    }
  }

  lemma {:induction false} AtomicAt(concepts: map<string, Row>, items: seq<Item>, now: int, model: string, i: nat)
    requires DistinctItems(items) && i < |items|
    ensures var p := PlanItem(items[i], Find(concepts, ItemId(items[i])), now, model);
      Find(AtomicAll(concepts, items, now, model), ItemId(items[i]))
      == if p.Submits? then Some(p.row) else Find(concepts, ItemId(items[i]))
  {
    var init, last := items[..|items| - 1], items[|items| - 1];
    if i == |items| - 1 {
      AtomicElsewhere(concepts, init, now, model, ItemId(last));
    } else {
      AtomicAt(concepts, init, now, model, i);
      assert init[i] == items[i];
    }
  }

  /** No row that this client updates was deleted and created anew since it was read. */
  ghost predicate SameLives(s: System, cl: Client, model: string)
    requires |cl.seen| == |cl.items|
  {
    forall i :: 0 <= i < |cl.seen| ==>
      PlanAt(cl, i, model).Submits? && cl.seen[i].row.Some? ==> cl.seen[i].incarnation == Life(s, ItemId(cl.items[i]))
  }

  /** What restore left out would still be left out. */
  ghost predicate StillOmitted(s: System, cl: Client, model: string)
    requires |cl.seen| == |cl.items|
  {
    forall i :: 0 <= i < |cl.seen| ==>
      PlanAt(cl, i, model).Omitted? ==>
        PlanItem(cl.items[i], Find(s.concepts, ItemId(cl.items[i])), cl.now, model).Omitted?
  }

  /** At the commit, a submitted item's row is the row it was planned from. */
  lemma CommittedReadIsCurrent(s: System, s': System, c: nat, i: nat, model: string)
    requires Inv(s, model) && CommitStep(s, s', c, model) && !s.clients[c].call.Remove?
    requires i < |s.clients[c].items| && PlanAt(s.clients[c], i, model).Submits?
    requires s.clients[c].seen[i].row.Some? ==>
      s.clients[c].seen[i].incarnation == Life(s, ItemId(s.clients[c].items[i]))
    ensures var cl := s.clients[c]; var id := ItemId(cl.items[i]);
      && cl.seen[i].row == Find(s.concepts, id)
      && Find(s'.concepts, id) == Some(PlanAt(cl, i, model).row)
  {
    var cl := s.clients[c];
    var id := ItemId(cl.items[i]);
    var ws := Submission(cl, model);
    var w := PlanAt(cl, i, model).write;
    SubmissionIsGood(s, cl, model);
    WritesComeFromItems(cl, |cl.seen|, model);
    assert FromItem(cl, w, i, model);
    PlanIsGood(cl.items[i], cl.seen[i].row, cl.now, model);
    BatchMovesRow(s, ws, id);
    assert Applies(s.concepts, w);
    ItemIsStored(cl.items[i], s.concepts, cl.now, model);
  }

  lemma ItemIsStored(item: Item, concepts: map<string, Row>, now: int, model: string)
    requires Keyed(concepts) && PlanItem(item, Find(concepts, ItemId(item)), now, model).Submits?
    ensures var p := PlanItem(item, Find(concepts, ItemId(item)), now, model);
      Applies(concepts, p.write) && Left(concepts, p.write) == Some(p.row)
  {
    match item
    case SaveItem(entry, id, auto) => PlanIsStored(entry, id, Find(concepts, id), auto, now, model, concepts);
    case RestoreItem(record, policy) => DecisionIsStored(record, policy, model, concepts);
  }

  /** Two tables with the same rows. */
  lemma SameTables(a: map<string, Row>, b: map<string, Row>)
    requires forall id :: Find(a, id) == Find(b, id)
    ensures a == b
  {
    assert forall id :: id in a <==> Find(a, id).Some?;
    assert forall id :: id in b <==> Find(b, id).Some?;
  }

  lemma ItemCommits(s: System, s': System, c: nat, i: nat, model: string)
    requires Inv(s, model) && CommitStep(s, s', c, model) && !s.clients[c].call.Remove?
    requires SameLives(s, s.clients[c], model) && StillOmitted(s, s.clients[c], model)
    requires i < |s.clients[c].items|
    ensures var cl := s.clients[c]; var id := ItemId(cl.items[i]);
      Find(s'.concepts, id) == Find(AtomicAll(s.concepts, cl.items, cl.now, model), id)
  {
    var cl := s.clients[c];
    AtomicAt(s.concepts, cl.items, cl.now, model, i);
    if PlanAt(cl, i, model).Submits? {
      CommittedReadIsCurrent(s, s', c, i, model);
    } else {
      OmittedIsUntouched(s, s', c, i, model);
    }
  }

  lemma Untargeted(s: System, s': System, c: nat, id: string, model: string)
    requires Inv(s, model) && CommitStep(s, s', c, model) && !s.clients[c].call.Remove?
    requires forall k: nat :: k < |s.clients[c].items| && PlanAt(s.clients[c], k, model).Submits? ==>
      ItemId(s.clients[c].items[k]) != id
    ensures Find(s'.concepts, id) == Find(s.concepts, id)
  {
    var cl := s.clients[c];
    var ws := Submission(cl, model);
    WritesComeFromItems(cl, |cl.seen|, model);
    forall w | w in ws ensures WriteId(w) != id {
      var k: nat :| k < |cl.seen| && FromItem(cl, w, k, model);
      PlanIsGood(cl.items[k], cl.seen[k].row, cl.now, model);
    }
    SubmissionIsGood(s, cl, model);
    DistinctBatch(s.concepts, ws);
  }

  lemma OmittedIsUntouched(s: System, s': System, c: nat, i: nat, model: string)
    requires Inv(s, model) && CommitStep(s, s', c, model) && !s.clients[c].call.Remove?
    requires i < |s.clients[c].items| && PlanAt(s.clients[c], i, model).Omitted?
    ensures Find(s'.concepts, ItemId(s.clients[c].items[i])) == Find(s.concepts, ItemId(s.clients[c].items[i]))
  {
    var items := s.clients[c].items;
    forall k: nat | k < |items| && PlanAt(s.clients[c], k, model).Submits?
      ensures ItemId(items[k]) != ItemId(items[i])
    {
      assert k < i || i < k;
    }
    Untargeted(s, s', c, ItemId(items[i]), model);
  }

  lemma OtherRowsStay(s: System, s': System, c: nat, id: string, model: string)
    requires Inv(s, model) && CommitStep(s, s', c, model) && !s.clients[c].call.Remove?
    requires forall item :: item in s.clients[c].items ==> ItemId(item) != id
    ensures Find(s'.concepts, id) == Find(s.concepts, id)
  {
    assert forall k :: 0 <= k < |s.clients[c].items| ==> s.clients[c].items[k] in s.clients[c].items;
    Untargeted(s, s', c, id, model);
  }

  /**
   A committed batch has exactly the effect of planning and storing all its items at once, from
   the rows as they are at the commit.
   */
  lemma CommitIsAtomic(s: System, s': System, c: nat, model: string)
    requires Inv(s, model) && CommitStep(s, s', c, model) && !s.clients[c].call.Remove?
    requires SameLives(s, s.clients[c], model) && StillOmitted(s, s.clients[c], model)
    ensures s'.concepts == AtomicAll(s.concepts, s.clients[c].items, s.clients[c].now, model)
  {
    var cl := s.clients[c];
    forall id ensures Find(s'.concepts, id) == Find(AtomicAll(s.concepts, cl.items, cl.now, model), id) {
      if i :| 0 <= i < |cl.items| && ItemId(cl.items[i]) == id {
        ItemCommits(s, s', c, i, model);
      } else {
        OtherRowsStay(s, s', c, id, model);
        AtomicElsewhere(s.concepts, cl.items, cl.now, model, id);
      }
    }
    SameTables(s'.concepts, AtomicAll(s.concepts, cl.items, cl.now, model));
  }

  /**
   Within one life of every updated id that holds exactly when the records a restore left out
   would be left out again: an omission is decided at the read and not checked at the commit.
   (A save omits nothing.)
   */
  lemma CommitIsAtomicExactly(s: System, s': System, c: nat, model: string)
    requires Inv(s, model) && CommitStep(s, s', c, model) && !s.clients[c].call.Remove?
    requires SameLives(s, s.clients[c], model)
    ensures s'.concepts == AtomicAll(s.concepts, s.clients[c].items, s.clients[c].now, model)
      <==> StillOmitted(s, s.clients[c], model)
  {
    if StillOmitted(s, s.clients[c], model) {
      CommitIsAtomic(s, s', c, model);
    } else {
      StaleOmissionDiffers(s, s', c, model);
    }
  }

  lemma StaleOmissionDiffers(s: System, s': System, c: nat, model: string)
    requires Inv(s, model) && CommitStep(s, s', c, model) && !s.clients[c].call.Remove?
    requires !StillOmitted(s, s.clients[c], model)
    ensures s'.concepts != AtomicAll(s.concepts, s.clients[c].items, s.clients[c].now, model)
  {
    var cl := s.clients[c];
    var i: nat :| i < |cl.seen| && PlanAt(cl, i, model).Omitted?
      && !PlanItem(cl.items[i], Find(s.concepts, ItemId(cl.items[i])), cl.now, model).Omitted?;
    var id := ItemId(cl.items[i]);
    OmittedIsUntouched(s, s', c, i, model);
    AtomicAt(s.concepts, cl.items, cl.now, model, i);
    var p := PlanItem(cl.items[i], Find(s.concepts, id), cl.now, model);
    RestorePlanChanges(cl.items[i], Find(s.concepts, id), cl.now, model);
  }

  lemma RestorePlanChanges(item: Item, existing: Option<Row>, now: int, model: string)
    requires item.RestoreItem? && !PlanItem(item, existing, now, model).Omitted?
    ensures PlanItem(item, existing, now, model).Submits?
    ensures Some(PlanItem(item, existing, now, model).row) != existing
  {
  }

  // -------------------------------------------------- over whole runs

  /** In a later state of the same life the version has not fallen. */
  ghost predicate Floor(s: System, id: string, life: nat, version: int) {
    || Life(s, id) > life
    || (Life(s, id) == life && (id in s.concepts ==> s.concepts[id].version >= version))
  }

  lemma {:induction false} FloorStays(run: seq<System>, i: nat, j: nat, id: string, life: nat, version: int,
                                      model: string)
    requires IsRun(run, model) && i <= j < |run| && Floor(run[i], id, life, version)
    ensures Floor(run[j], id, life, version)
  {
    if i < j {
      FloorStays(run, i, j - 1, id, life, version, model);
      RunMovesRow(run, j, id, model);
      FloorStep(run[j - 1], run[j], id, life, version);
    }
  }

  lemma FloorStep(s: System, s': System, id: string, life: nat, version: int)
    requires RowStep(s, s', id) && Floor(s, id, life, version)
    ensures Floor(s', id, life, version)
  {
  }

  /** In every run: versions rise one by one, a namespace lasts as long as the row, lives are counted. */
  lemma RunMovesRow(run: seq<System>, j: nat, id: string, model: string)
    requires IsRun(run, model) && 0 < j < |run|
    ensures RowStep(run[j - 1], run[j], id)
  {
    RunStep(run, j, model);
    StepMovesRow(run[j - 1], run[j], id, model);
  }

  /** In the step after `i`, client `c` commits a save that names the version it expects of `id`. */
  ghost predicate WinsVersion(run: seq<System>, i: nat, c: nat, id: string, version: int, model: string) {
    && i + 1 < |run| && CommitStep(run[i], run[i + 1], c, model)
    && exists k :: 0 <= k < |run[i].clients[c].items| && IsSaveOf(run[i].clients[c].items[k], id, version)
  }

  ghost predicate IsSaveOf(item: Item, id: string, version: int) {
    item.SaveItem? && item.key == id && item.entry.expectedVersion == Some(version)
  }

  lemma WinnerRaisesVersion(run: seq<System>, i: nat, c: nat, id: string, version: int, model: string)
    requires IsRun(run, model) && WinsVersion(run, i, c, id, version, model)
    ensures id in run[i].concepts && run[i].concepts[id].version == version
    ensures Floor(run[i + 1], id, Life(run[i], id), version + 1)
  {
    var s, s' := run[i], run[i + 1];
    var cl := s.clients[c];
    RunKeepsInv(run, i, model);
    var k: nat :| k < |cl.items| && IsSaveOf(cl.items[k], id, version);
    ExpectingSaveUpdates(s, s', c, k, version, model);
    CommitMovesRow(s, s', c, id, model);
  }

  lemma ExpectingSaveUpdates(s: System, s': System, c: nat, k: nat, version: int, model: string)
    requires Inv(s, model) && CommitStep(s, s', c, model)
    requires k < |s.clients[c].items| && IsSaveOf(s.clients[c].items[k], ItemId(s.clients[c].items[k]), version)
    ensures var id := ItemId(s.clients[c].items[k]);
      && id in s.concepts && s.concepts[id].version == version
      && id in s'.concepts && s'.concepts[id].version == version + 1
  {
    var cl := s.clients[c];
    var item := cl.items[k];
    var w := PlanAt(cl, k, model).write;
    PlanIsGood(item, cl.seen[k].row, cl.now, model);
    assert w.Update? && w.expectedVersion == version;
    WritesComeFromItems(cl, |cl.seen|, model);
    assert FromItem(cl, w, k, model);
    SubmissionIsGood(s, cl, model);
    BatchMovesRow(s, Submission(cl, model), ItemId(item));
  }

  /** Of all writers that hold one expected version, at most one ever commits in one life of the id. */
  lemma OneWinnerPerVersion(run: seq<System>, i: nat, c: nat, j: nat, d: nat, id: string, version: int, model: string)
    requires IsRun(run, model) && i < j
    requires WinsVersion(run, i, c, id, version, model) && WinsVersion(run, j, d, id, version, model)
    ensures Life(run[i], id) < Life(run[j], id)
  {
    WinnerRaisesVersion(run, i, c, id, version, model);
    WinnerRaisesVersion(run, j, d, id, version, model);
    FloorStays(run, i + 1, j, id, Life(run[i], id), version + 1, model);
  }

  lemma {:induction false} CommittedStays(run: seq<System>, i: nat, j: nat, c: nat, model: string)
    requires IsRun(run, model) && i <= j < |run| && c < |run[i].clients| && run[i].clients[c].status.Committed?
    ensures c < |run[j].clients| && run[j].clients[c].status.Committed?
  {
    if i < j {
      CommittedStays(run, i, j - 1, c, model);
      assert StepAt(run, j - 1, model);
      var d := StepActor(run[j - 1], run[j], model);
    }
  }

  /** Every call commits at most once. */
  lemma CommitsOnce(run: seq<System>, i: nat, j: nat, c: nat, model: string)
    requires IsRun(run, model) && i + 1 < |run| && j + 1 < |run|
    requires CommitStep(run[i], run[i + 1], c, model) && CommitStep(run[j], run[j + 1], c, model)
    ensures i == j
  {
    CommitEnds(run[i], run[i + 1], c, model);
    CommitEnds(run[j], run[j + 1], c, model);
    if i < j {
      CommittedStays(run, i + 1, j, c, model);
    } else if j < i {
      CommittedStays(run, j + 1, i, c, model);
    }
  }

  lemma CommitEnds(s: System, s': System, c: nat, model: string)
    requires CommitStep(s, s', c, model)
    ensures c < |s.clients| && s.clients[c].status.Running?
    ensures c < |s'.clients| && s'.clients[c].status.Committed?
  {
  }
}
