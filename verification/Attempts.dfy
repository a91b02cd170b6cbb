/** The calls of a client: when a re-embedding goes on, what a restore commits, how often a batch is tried. */
module Attempts {
  import opened Wrappers
  import opened Rows
  import opened Restoring
  import opened SavedColumns
  import opened Concurrency

  ghost predicate AttemptsHold(s: System) {
    forall c :: 0 <= c < |s.clients| ==> 1 <= s.clients[c].attempt <= 8
  }

  lemma StepKeepsAttempts(s: System, s': System, model: string)
    requires AttemptsHold(s) && Next(s, s', model)
    ensures AttemptsHold(s')
  {
    var c := StepActor(s, s', model);
    if now :| ReadStep(s, s', c, now, model) {
    } else if vector, from :| CheckStep(s, s', c, vector, from, model) {
    }
  }

  lemma FirstAttempts(s: System)
    requires Init(s)
    ensures AttemptsHold(s)
  {
    forall c | 0 <= c < |s.clients| ensures 1 <= s.clients[c].attempt <= 8 {
      assert Fresh(s.clients[c]);
    }
  }

  lemma NextOf(run: seq<System>, i: nat, model: string)
    requires IsRun(run, model) && i + 1 < |run|
    ensures Next(run[i], run[i + 1], model)
  {
    assert StepAt(run, i, model);
  }

  /** No client tries more than eight times. */
  lemma {:induction false} AtMostEightAttempts(run: seq<System>, i: nat, model: string)
    requires IsRun(run, model) && i < |run|
    ensures AttemptsHold(run[i])
  {
    if i == 0 {
      FirstAttempts(run[0]);
    } else {
      AtMostEightAttempts(run, i - 1, model);
      NextOf(run, i - 1, model);
      StepKeepsAttempts(run[i - 1], run[i], model);
    }
  }

  /** The item whose write fails is a save that names the version it expects. */
  ghost predicate FailsOnExpectedVersion(s: System, cl: Client, model: string) {
    && |cl.seen| <= |cl.items| && Outcome(s.concepts, Submission(cl, model), 0).Failed?
    && var i := Outcome(s.concepts, Submission(cl, model), 0).index;
       i < |cl.items| && cl.items[i].SaveItem? && cl.items[i].entry.expectedVersion.Some?
  }

  /**
   A client whose batch fails gives up if it removes a concept, after its eighth attempt, or if the
   failing save names a version; else it reads everything again. The store stays as it is.
   */
  lemma GivesUpExactly(s: System, s': System, c: nat, model: string)
    requires Inv(s, model) && ConflictStep(s, s', c, model) && AttemptsHold(s)
    ensures s'.concepts == s.concepts && s'.vectors == s.vectors
    ensures
      var cl, next := s.clients[c], s'.clients[c];
      && (next.status == Stopped <==> cl.call.Remove? || cl.attempt == 8 || FailsOnExpectedVersion(s, cl, model))
      && (next.status != Stopped ==>
            next.status == Running && next.seen == [] && next.items == cl.items && next.attempt == cl.attempt + 1)
  {
    assert ClientHolds(s, s.clients[c], model);
  }

  ghost predicate OnlySaves(cl: Client) {
    forall i :: 0 <= i < |cl.items| ==> cl.items[i].SaveItem?
  }

  ghost predicate AllSubmit(cl: Client, n: nat, model: string)
    requires n <= |cl.seen| <= |cl.items|
  {
    forall i :: 0 <= i < n ==> PlanAt(cl, i, model).Submits?
  }

  lemma SavesSubmit(s: System, cl: Client, model: string)
    requires ClientHolds(s, cl, model) && OnlySaves(cl)
    ensures AllSubmit(cl, |cl.seen|, model)
  {
    forall i | 0 <= i < |cl.seen| ensures PlanAt(cl, i, model).Submits? {
      assert !PlanAt(cl, i, model).Refused?;
    }
  }

  ghost predicate IsWriteOf(cl: Client, w: Write, i: nat, model: string)
    requires i < |cl.seen| <= |cl.items|
  {
    PlanAt(cl, i, model).Submits? && w == PlanAt(cl, i, model).write
  }

  lemma OneWrite(cl: Client, i: nat, ws: seq<Write>, model: string)
    requires i < |cl.seen| <= |cl.items| && PlanAt(cl, i, model).Submits?
    requires ws == WritesUpTo(cl, i + 1, model)
    ensures var before := WritesUpTo(cl, i, model); |ws| == |before| + 1 && ws[..|before|] == before
    ensures IsWriteOf(cl, ws[|ws| - 1], i, model)
  {
    WritesSnoc(cl, i, model);
  }

  /** Where every item submits a write, the writes are those of the items, one by one. */
  lemma {:induction false} WritesOfItems(cl: Client, n: nat, model: string, i: nat)
    requires i < n <= |cl.seen| <= |cl.items| && AllSubmit(cl, n, model)
    ensures |WritesUpTo(cl, n, model)| == n && IsWriteOf(cl, WritesUpTo(cl, n, model)[i], i, model)
    decreases n
  {
    var ws := WritesUpTo(cl, n, model);
    assert PlanAt(cl, n - 1, model).Submits?;
    OneWrite(cl, n - 1, ws, model);
    if n > 1 {
      WritesOfItems(cl, n - 1, model, if i < n - 1 then i else 0);
    }
    if i < n - 1 {
      assert ws[i] == ws[..n - 1][i];
    }
  }

  /** In a batch of saves the write that fails belongs to the item with its index. */
  lemma FailingWriteIsItsItems(s: System, c: nat, model: string)
    requires Inv(s, model) && Ready(s, c) && OnlySaves(s.clients[c]) && !s.clients[c].call.Remove?
    requires Outcome(s.concepts, Submission(s.clients[c], model), 0).Failed?
    ensures
      var cl := s.clients[c];
      var i := Outcome(s.concepts, Submission(cl, model), 0).index;
      i < |cl.items| && WriteId(Submission(cl, model)[i]) == ItemId(cl.items[i])
  {
    var cl := s.clients[c];
    assert ClientHolds(s, cl, model);
    SavesSubmit(s, cl, model);
    if |cl.seen| > 0 {
      WritesOfItems(cl, |cl.seen|, model, 0);
    }
    var i := Outcome(s.concepts, Submission(cl, model), 0).index;
    WritesOfItems(cl, |cl.seen|, model, i);
    PlanIsGood(cl.items[i], cl.seen[i].row, cl.now, model);
  }

  /** A re-embedding goes on exactly with a vector of its namespace that no author made, unless it overwrites. */
  lemma ChecksExactly(s: System, s': System, c: nat, vector: Embedding, from: Representation, model: string)
    requires Inv(s, model) && CheckStep(s, s', c, vector, from, model)
    ensures s'.concepts == s.concepts && s'.vectors == s.vectors
    ensures
      var call, row := s.clients[c].call, Find(s.concepts, s.clients[c].call.id);
      var goesOn := row.Some? && row.value.namespace == call.namespace && row.value.embedding.Some?
                    && (call.overwrite || MadeByMachine(row.value.provenance, Vector));
      && s'.clients[c].status == (if goesOn then Running else Stopped)
      && (goesOn ==>
            var items := s'.clients[c].items;
            && |items| == 1 && items[0].SaveItem? && items[0].key == call.id
            && items[0].entry.namespace == Some(call.namespace) && items[0].entry.embedding == Some(vector)
            && items[0].entry.expectedVersion == Some(row.value.version)
            && Given(items[0].entry, Vector) == Provenance(Derived, Some(from), Some(model), None, None))
  {
  }

  /** A committed record is restored over the row as it is at the commit. */
  lemma CommitRestoresRecord(s: System, s': System, c: nat, k: nat, model: string)
    requires Inv(s, model) && CommitStep(s, s', c, model) && SameLives(s, s.clients[c], model)
    requires k < |s.clients[c].items| && s.clients[c].items[k].RestoreItem?
    requires PlanAt(s.clients[c], k, model).Submits?
    ensures
      var item := s.clients[c].items[k];
      IsRestored(Find(s.concepts, item.record.id), item.record, item.policy, model, Find(s'.concepts, item.record.id))
  {
    var item := s.clients[c].items[k];
    assert ClientHolds(s, s.clients[c], model);
    CommittedReadIsCurrent(s, s', c, k, model);
    RestoresOne(s.concepts, item.record, item.policy, model);
  }
}
