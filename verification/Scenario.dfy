/** Concrete runs, one step after another: a client checks or reads a row, or commits its one write. */
module Scenario {
  import opened Rows
  import opened Concurrency

  /** The next row is read. */
  function AfterRead(s: System, c: nat, now: int): System
    requires c < |s.clients| && |s.clients[c].seen| < |s.clients[c].items|
  {
    var cl := s.clients[c];
    var id := ItemId(cl.items[|cl.seen|]);
    s.(clients := s.clients[c := cl.(now := if cl.seen == [] then now else cl.now,
                                     seen := cl.seen + [Read(Find(s.concepts, id), Life(s, id))])])
  }

  lemma ReadActs(s: System, c: nat, now: int, model: string)
    requires c < |s.clients| && s.clients[c].status.Running? && |s.clients[c].seen| < |s.clients[c].items|
    requires
      var cl := s.clients[c];
      var item := cl.items[|cl.seen|];
      !PlanItem(item, Find(s.concepts, ItemId(item)), if cl.seen == [] then now else cl.now, model).Refused?
    ensures Acts(s, AfterRead(s, c, now), c, model)
  {
    assert ReadStep(s, AfterRead(s, c, now), c, now, model);
  }

  /** A batch of one write is committed. */
  function AfterWrite(s: System, c: nat, w: Write): System
    requires c < |s.clients| && Applies(s.concepts, w)
  {
    System(Written(s.concepts, w), IndexWritten(s.vectors, w),
           if w.Insert? then s.lives[w.row.id := Life(s, w.row.id) + 1] else s.lives,
           s.clients[c := s.clients[c].(status := Committed)])
  }

  lemma WriteActs(s: System, c: nat, w: Write, model: string)
    requires Ready(s, c) && Submission(s.clients[c], model) == [w]
    requires Applies(s.concepts, w) && (w.Update? ==> HasFields(w.fields))
    ensures CommitStep(s, AfterWrite(s, c, w), c, model)
  {
    OneWrite(s.concepts, s.vectors, w);
    OneInsertion(s, w);
  }

  lemma OneWrite(concepts: map<string, Row>, vectors: map<string, VectorRow>, w: Write)
    requires Applies(concepts, w) && (w.Update? ==> HasFields(w.fields))
    ensures Outcome(concepts, [w], 0).Applied? && WrittenAll(concepts, [w]) == Written(concepts, w)
    ensures IndexWrittenAll(vectors, [w]) == IndexWritten(vectors, w)
  {
    assert [w][1..] == [];
  }

  lemma OneInsertion(s: System, w: Write)
    ensures NewLives(s, [w]) == if w.Insert? then s.lives[w.row.id := Life(s, w.row.id) + 1] else s.lives
  {
    assert w in [w];
    assert InsertedIds([w]) == if w.Insert? then {w.row.id} else {};
  }

  /** The batch of a client whose last item is the only one that writes. */
  lemma LastSubmits(cl: Client, w: Write, row: Row, model: string)
    requires 0 < |cl.seen| == |cl.items| && !cl.call.Remove?
    requires forall i :: 0 <= i < |cl.seen| - 1 ==> !PlanAt(cl, i, model).Submits?
    requires PlanAt(cl, |cl.seen| - 1, model) == Submits(w, row)
    ensures Submission(cl, model) == [w]
  {
    NoneSubmits(cl, |cl.seen| - 1, model);
  }

  lemma {:induction false} NoneSubmits(cl: Client, n: nat, model: string)
    requires n <= |cl.seen| == |cl.items|
    requires forall i :: 0 <= i < n ==> !PlanAt(cl, i, model).Submits?
    ensures WritesUpTo(cl, n, model) == []
  {
    if n > 0 {
      NoneSubmits(cl, n - 1, model);
    }
  }

  /** A legal start alone is a run. */
  lemma RunOfOne(s: System, model: string)
    requires Init(s)
    ensures IsRun([s], model)
  {
  }

  /** A run goes on with any step from its last state. */
  lemma RunSnoc(run: seq<System>, s: System, s': System, c: nat, model: string)
    requires IsRun(run, model) && run[|run| - 1] == s && Acts(s, s', c, model)
    ensures IsRun(run + [s'], model)
  {
    var longer := run + [s'];
    forall i: nat | i + 1 < |longer| ensures StepAt(longer, i, model) {
      if i + 1 < |run| {
        assert StepAt(run, i, model);
      }
    }
  }
}
