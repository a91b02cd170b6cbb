/**
 What a restore leaves out is decided at the read and not checked at the commit: a run in which
 the concept that stood in the way is gone by then.
 */
module StaleOmission {
  import opened Wrappers
  import opened Rows
  import opened Restoring
  import opened Concurrency
  import opened Scenario

  const X := "x"
  const Y := "y"

  function Record(id: string): RestoreRecord {
    RestoreRecord(id, "default", 1, 0, 0, [], Some("text"), None, None, map[], None, None)
  }

  /** The rows of these records have no vector, so the model does not matter. */
  function RowOf(id: string): Row {
    RestoredRow(Record(id), "")
  }

  function Restorer(): Client {
    Start(Batch([RestoreItem(Record(X), Skip), RestoreItem(Record(Y), Skip)]))
  }

  function Remover(): Client {
    Start(Call.Remove(X, None))
  }

  /** The restorer has seen that x exists. */
  function SeenX(): Client {
    Restorer().(seen := [Read(Some(RowOf(X)), 0)])
  }

  /** And that y does not. */
  function SeenBoth(): Client {
    Restorer().(seen := [Read(Some(RowOf(X)), 0), Read(None, 0)])
  }

  function Done(cl: Client): Client {
    cl.(status := Committed)
  }

  function WithX(cl: Client): System {
    System(map[X := RowOf(X)], map[], map[], [cl, Remover()])
  }

  /** x is deleted. */
  function WithoutX(): System {
    System(map[], map[], map[], [SeenBoth(), Done(Remover())])
  }

  /** y is restored, x is not. */
  function OnlyY(): System {
    System(map[Y := RowOf(Y)], map[], map[Y := 1], [Done(SeenBoth()), Done(Remover())])
  }

  lemma DistinctIds()
    ensures X != Y
  {
    assert X[0] != Y[0];
  }

  lemma BeginsWell()
    ensures Init(WithX(Restorer()))
  {
    DistinctIds();
    var s := WithX(Restorer());
    assert forall c :: 0 <= c < |s.clients| ==> s.clients[c] in [Restorer(), Remover()];
    assert Fresh(Restorer()) && Fresh(Remover());
    assert IndexOf(s.concepts) == map[];
  }

  /** What the restorer decides of its two records, and when. */
  lemma Decisions(model: string)
    ensures PlanItem(RestoreItem(Record(X), Skip), Some(RowOf(X)), 0, model).Omitted?
    ensures PlanItem(RestoreItem(Record(X), Skip), None, 0, model).Submits?
    ensures PlanItem(RestoreItem(Record(Y), Skip), None, 0, model) == Submits(Insert(RowOf(Y)), RowOf(Y))
  {
  }

  lemma ReadsX(model: string)
    ensures Acts(WithX(Restorer()), WithX(SeenX()), 0, model)
  {
    var s := WithX(Restorer());
    Decisions(model);
    ReadActs(s, 0, 0, model);
    assert Restorer().seen + SeenX().seen == SeenX().seen;
    assert AfterRead(s, 0, 0).clients == WithX(SeenX()).clients;
  }

  lemma ReadsY(model: string)
    ensures Acts(WithX(SeenX()), WithX(SeenBoth()), 0, model)
  {
    var s := WithX(SeenX());
    DistinctIds();
    Decisions(model);
    ReadActs(s, 0, 0, model);
    assert SeenX().seen + [Read(None, 0)] == SeenBoth().seen;
    assert AfterRead(s, 0, 0).clients == WithX(SeenBoth()).clients;
  }

  lemma DeletesX(model: string)
    ensures Acts(WithX(SeenBoth()), WithoutX(), 1, model)
  {
    var s := WithX(SeenBoth());
    WriteActs(s, 1, Delete(X, None), model);
    assert s.clients[1 := Done(Remover())] == WithoutX().clients;
    assert Written(s.concepts, Delete(X, None)) == map[];
  }

  lemma RestoresY(model: string)
    ensures CommitStep(WithoutX(), OnlyY(), 0, model)
  {
    var s := WithoutX();
    var w := Insert(RowOf(Y));
    Decisions(model);
    LastSubmits(SeenBoth(), w, RowOf(Y), model);
    WriteActs(s, 0, w, model);
    assert s.clients[0 := Done(SeenBoth())] == OnlyY().clients;
    assert map[][Y := RowOf(Y)] == map[Y := RowOf(Y)];
  }

  /** A run without re-created ids whose commit differs from restoring both records at once. */
  lemma OmissionCanBeStale(model: string) returns (run: seq<System>)
    ensures IsRun(run, model) && |run| == 5 && CommitStep(run[3], run[4], 0, model)
    ensures
      var cl := run[3].clients[0];
      SameLives(run[3], cl, model) && run[4].concepts != AtomicAll(run[3].concepts, cl.items, cl.now, model)
  {
    run := UntilTheCommit(model);
    RestoresY(model);
    RunSnoc(run, WithoutX(), OnlyY(), 0, model);
    RunKeepsInv(run, 3, model);
    Stale(model);
    CommitIsAtomicExactly(WithoutX(), OnlyY(), 0, model);
    run := run + [OnlyY()];
  }

  lemma UntilTheCommit(model: string) returns (run: seq<System>)
    ensures IsRun(run, model) && |run| == 4 && run[3] == WithoutX()
  {
    BeginsWell();
    RunOfOne(WithX(Restorer()), model);
    ReadsX(model);
    RunSnoc([WithX(Restorer())], WithX(Restorer()), WithX(SeenX()), 0, model);
    run := [WithX(Restorer())] + [WithX(SeenX())];
    ReadsY(model);
    RunSnoc(run, WithX(SeenX()), WithX(SeenBoth()), 0, model);
    run := run + [WithX(SeenBoth())];
    DeletesX(model);
    RunSnoc(run, WithX(SeenBoth()), WithoutX(), 1, model);
    run := run + [WithoutX()];
  }

  lemma Stale(model: string)
    ensures SameLives(WithoutX(), SeenBoth(), model) && !StillOmitted(WithoutX(), SeenBoth(), model)
  {
    Decisions(model);
    assert PlanAt(SeenBoth(), 0, model).Omitted?;
    assert !PlanItem(SeenBoth().items[0], Find(WithoutX().concepts, X), SeenBoth().now, model).Omitted?;
  }
}
