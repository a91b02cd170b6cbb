/**
 What the version check does not see: an id that is deleted and created anew starts over at
 version 1, so a plan made from the old row, or allowed by it, can commit over the new one.
 */
module Recreation {
  import opened Wrappers
  import opened Rows
  import opened Planning
  import opened Concurrency
  import opened SaveRuns
  import opened Scenario

  /** A save of a row it read: its planned fields go into the row that is there now, of the same version. */
  lemma CommitAppliesFields(s: System, s': System, c: nat, i: nat, model: string)
    requires Inv(s, model) && CommitStep(s, s', c, model) && !s.clients[c].call.Remove?
    requires i < |s.clients[c].items| && s.clients[c].items[i].SaveItem? && s.clients[c].seen[i].row.Some?
    ensures
      var cl := s.clients[c];
      var id := cl.items[i].key;
      var r := cl.seen[i].row.value;
      var plan := PlanOf(cl.items[i].entry, id, Some(r), cl.items[i].auto, cl.now, model);
      && plan.Ok? && plan.value.write.Update?
      && id in s.concepts && s.concepts[id].version == r.version && s.concepts[id].namespace == r.namespace
      && id in s'.concepts && s'.concepts[id] == ApplyFields(s.concepts[id], plan.value.write.fields)
  {
    var cl := s.clients[c];
    var w := PlanAt(cl, i, model).write;
    SubmissionIsGood(s, cl, model);
    WritesComeFromItems(cl, |cl.seen|, model);
    assert !PlanAt(cl, i, model).Refused?;
    assert FromItem(cl, w, i, model);
    PlanIsGood(cl.items[i], cl.seen[i].row, cl.now, model);
    BatchMovesRow(s, Submission(cl, model), cl.items[i].key);
  }

  /** A save commits with the tags it merged from the row it read, whatever row is there now. */
  lemma CommitStoresPlannedTags(s: System, s': System, c: nat, i: nat, model: string)
    requires Inv(s, model) && CommitStep(s, s', c, model) && !s.clients[c].call.Remove?
    requires i < |s.clients[c].items| && s.clients[c].items[i].SaveItem? && s.clients[c].seen[i].row.Some?
    ensures
      var cl := s.clients[c];
      var id := cl.items[i].key;
      var r := cl.seen[i].row.value;
      && id in s.concepts && s.concepts[id].version == r.version && s.concepts[id].namespace == r.namespace
      && id in s'.concepts && s'.concepts[id].version == r.version + 1
      && MergeTags(r.tags, cl.items[i].entry.tags) == Some(s'.concepts[id].tags)
  {
    CommitAppliesFields(s, s', c, i, model);
  }

  /** So a tag of the current row is lost exactly when the old row and the entry lack it. */
  lemma TagLostExactly(s: System, s': System, c: nat, i: nat, t: string, model: string)
    requires Inv(s, model) && CommitStep(s, s', c, model) && !s.clients[c].call.Remove?
    requires i < |s.clients[c].items| && s.clients[c].items[i].SaveItem? && s.clients[c].seen[i].row.Some?
    requires t in TagsOf(s.concepts, s.clients[c].items[i].key)
    ensures
      var cl := s.clients[c];
      t !in TagsOf(s'.concepts, cl.items[i].key)
      <==> t !in cl.seen[i].row.value.tags && t !in cl.items[i].entry.tags.GetOr([])
  {
    CommitStoresPlannedTags(s, s', c, i, model);
  }

  /** What a save makes of the authorship of `rep`: its own, the derived vector's or that of the row it read. */
  predicate WritesMachineMade(entry: SaveEntry, read: Row, auto: Option<AutoVector>, rep: Representation) {
    if Supplies(entry, rep) then IsMachineMade(Some(NextProvenance(entry, rep)))
    else (rep == Vector && TakesAuto(entry, Some(read), auto)) || IsMachineMade(ProvenanceOf(read.provenance, rep))
  }

  lemma PlanDecidesAuthor(entry: SaveEntry, id: string, read: Row, current: Row, auto: Option<AutoVector>, now: int,
                          model: string, rep: Representation)
    requires PlanOf(entry, id, Some(read), auto, now, model).Ok? && Authored(current, rep)
    ensures
      var fields := PlanOf(entry, id, Some(read), auto, now, model).value.write.fields;
      !Authored(ApplyFields(current, fields), rep) <==> WritesMachineMade(entry, read, auto, rep)
  {
    SuppliedEntry(entry, Some(read), rep);
  }

  /** Authored content of the current row is lost exactly when the save writes machine-made provenance for it. */
  lemma AuthorLostExactly(s: System, s': System, c: nat, i: nat, rep: Representation, model: string)
    requires Inv(s, model) && CommitStep(s, s', c, model) && !s.clients[c].call.Remove?
    requires i < |s.clients[c].items| && s.clients[c].items[i].SaveItem? && s.clients[c].seen[i].row.Some?
    requires AuthoredAt(s, s.clients[c].items[i].key, rep)
    ensures
      var cl := s.clients[c];
      !AuthoredAt(s', cl.items[i].key, rep)
      <==> WritesMachineMade(cl.items[i].entry, cl.seen[i].row.value, cl.items[i].auto, rep)
  {
    var cl := s.clients[c];
    var id := cl.items[i].key;
    CommitAppliesFields(s, s', c, i, model);
    PlanDecidesAuthor(cl.items[i].entry, id, cl.seen[i].row.value, s.concepts[id], cl.items[i].auto, cl.now, model,
                      rep);
  }

  // ------------------------------------------- deleted and created in between

  const ID := "x"
  const NOBODY := Source(None, None, None)

  function Remover(): Client {
    Start(Call.Remove(ID, None))
  }

  function Saver(entry: SaveEntry): Client {
    Start(Batch([SaveItem(entry, ID, None)]))
  }

  /** A saver that has read its row. */
  function Reader(entry: SaveEntry, row: Option<Row>, life: nat): Client {
    Saver(entry).(seen := [Read(row, life)])
  }

  function Done(cl: Client): Client {
    cl.(status := Committed)
  }

  /** One row in its first life; some client, a remover and a creator. */
  function Before(cl: Client, row: Row, entry: SaveEntry): System {
    System(map[ID := row], IndexOf(map[ID := row]), map[], [cl, Remover(), Saver(entry)])
  }

  /** The row is gone. */
  function Between(cl: Client, entry: SaveEntry): System {
    System(map[], map[], map[], [cl, Done(Remover()), Saver(entry)])
  }

  /** The creator has seen that there is none. */
  function Seen(cl: Client, entry: SaveEntry): System {
    Between(cl, entry).(clients := [cl, Done(Remover()), Reader(entry, None, 0)])
  }

  /** And has created a row anew. */
  function After(cl: Client, row: Row, entry: SaveEntry): System {
    System(map[ID := row], IndexOf(map[ID := row]), map[ID := 1],
           [cl, Done(Remover()), Done(Reader(entry, None, 0))])
  }

  lemma Deletes(cl: Client, row: Row, entry: SaveEntry, model: string)
    ensures Acts(Before(cl, row, entry), Between(cl, entry), 1, model)
  {
    var s := Before(cl, row, entry);
    WriteActs(s, 1, Delete(ID, None), model);
    assert s.clients[1 := Done(Remover())] == Between(cl, entry).clients;
    assert Written(s.concepts, Delete(ID, None)) == map[];
    assert IndexWritten(s.vectors, Delete(ID, None)) == map[];
  }

  lemma SeesNone(cl: Client, entry: SaveEntry, model: string)
    requires PlanOf(entry, ID, None, None, 0, model).Ok?
    ensures Acts(Between(cl, entry), Seen(cl, entry), 2, model)
  {
    ReadActs(Between(cl, entry), 2, 0, model);
    assert Saver(entry).seen + [Read(None, 0)] == [Read(None, 0)];
    assert AfterRead(Between(cl, entry), 2, 0).clients == Seen(cl, entry).clients;
  }

  lemma Creates(cl: Client, row: Row, entry: SaveEntry, model: string)
    requires row.id == ID && Stored(row) == row
    requires PlanItem(SaveItem(entry, ID, None), None, 0, model) == Submits(Insert(row), row)
    ensures Acts(Seen(cl, entry), After(cl, row, entry), 2, model)
  {
    var s := Seen(cl, entry);
    LastSubmits(s.clients[2], Insert(row), row, model);
    WriteActs(s, 2, Insert(row), model);
    IndexFollowsWrite(s.concepts, Insert(row));
    assert IndexOf(map[]) == map[];
    assert s.clients[2 := Done(Reader(entry, None, 0))] == After(cl, row, entry).clients;
    assert map[][ID := row] == map[ID := row];
  }

  /** After its first step a client waits while the row is deleted and created anew. */
  lemma DeleteAndCreate(start: System, cl: Client, was: Row, row: Row, entry: SaveEntry, model: string)
    returns (run: seq<System>)
    requires Init(start) && Acts(start, Before(cl, was, entry), 0, model)
    requires row.id == ID && Stored(row) == row
    requires PlanItem(SaveItem(entry, ID, None), None, 0, model) == Submits(Insert(row), row)
    ensures IsRun(run, model) && |run| == 5 && run[0] == start && run[4] == After(cl, row, entry)
  {
    RunOfOne(start, model);
    RunSnoc([start], start, Before(cl, was, entry), 0, model);
    run := [start] + [Before(cl, was, entry)];
    Deletes(cl, was, entry, model);
    RunSnoc(run, Before(cl, was, entry), Between(cl, entry), 1, model);
    run := run + [Between(cl, entry)];
    SeesNone(cl, entry, model);
    RunSnoc(run, Between(cl, entry), Seen(cl, entry), 2, model);
    run := run + [Seen(cl, entry)];
    Creates(cl, row, entry, model);
    RunSnoc(run, Seen(cl, entry), After(cl, row, entry), 2, model);
    run := run + [After(cl, row, entry)];
  }

  lemma BeginsWell(cl: Client, row: Row, entry: SaveEntry)
    requires row.id == ID && Fresh(cl) && CarefulCall(cl.call) && !entry.overwrite
    ensures Init(Before(cl, row, entry)) && CarefulCalls(Before(cl, row, entry))
  {
    var s := Before(cl, row, entry);
    assert forall c :: 0 <= c < |s.clients| ==> s.clients[c] in [cl, Remover(), Saver(entry)];
    assert Fresh(Remover()) && Fresh(Saver(entry)) && CarefulCall(Remover().call) && CarefulCall(Saver(entry).call);
  }

  // --------------------------------------------------------- a lost tag

  function TagEntry(): SaveEntry {
    SaveEntry(None, None, None, None, None, Some(["b"]), NOBODY, map[], false, Keep, Keep)
  }

  function TextEntry(): SaveEntry {
    SaveEntry(None, None, Some("new"), None, None, Some(["z"]), NOBODY, map[], false, Keep, Keep)
  }

  function OldText(): Row {
    Row(ID, "default", 1, 0, 0, ["a"], Some("old"), None, None, None, map[], None, None)
  }

  function NewText(): Row {
    Row(ID, "default", 1, 0, 0, ["z"], Some("new"), None, None, None, map[Markdown := Declared(TextEntry())],
        None, None)
  }

  /** The new row once the tagger has committed. */
  function Tagged(): Row {
    NewText().(version := 2, tags := ["a", "b"], provenance := map[])
  }

  function TaggedFields(): UpdateFields {
    UpdateFields(Set(2), Set(0), Set(["a", "b"]), Keep, Keep, Keep, Keep, Set(map[]), Keep, Keep)
  }

  lemma DedupeOne(x: string)
    ensures Dedupe([x]) == [x]
  {
    assert [x][..0] == [];
    assert Dedupe([]) == [];
  }

  lemma DedupeTwo(x: string, y: string)
    requires x != y
    ensures Dedupe([x, y]) == [x, y]
  {
    DedupeOne(x);
    assert [x, y][..1] == [x];
  }

  /** What the tagger plans from the old row. */
  lemma TaggerPlan(model: string)
    ensures PlanOf(TagEntry(), ID, Some(OldText()), None, 0, model)
      == Ok(PlannedWrite(Update(ID, "default", 1, TaggedFields()), ApplyFields(OldText(), TaggedFields()), false, None))
  {
    forall rep ensures ProvenanceOf(Supplied(TagEntry(), Some(OldText()), SUPPLY_ORDER), rep) == None {
      SuppliedEntry(TagEntry(), Some(OldText()), rep);
    }
    SameProvenance(Supplied(TagEntry(), Some(OldText()), SUPPLY_ORDER), map[]);
    DedupeTwo("a", "b");
    assert ["a"] + ["b"] == ["a", "b"];
  }

  /** What the creator plans from nothing. */
  lemma TextPlan(model: string)
    ensures PlanItem(SaveItem(TextEntry(), ID, None), None, 0, model) == Submits(Insert(NewText()), NewText())
  {
    var supplied := Supplied(TextEntry(), None, SUPPLY_ORDER);
    forall rep ensures ProvenanceOf(supplied, rep) == ProvenanceOf(NewText().provenance, rep) {
      SuppliedEntry(TextEntry(), None, rep);
    }
    SameProvenance(supplied, NewText().provenance);
    DedupeOne("z");
    assert [] + ["z"] == ["z"];
  }

  function TaggerRead(): Client {
    Reader(TagEntry(), Some(OldText()), 0)
  }

  lemma TaggerReads(model: string)
    ensures Acts(Before(Saver(TagEntry()), OldText(), TextEntry()), Before(TaggerRead(), OldText(), TextEntry()), 0,
                 model)
  {
    var s := Before(Saver(TagEntry()), OldText(), TextEntry());
    TaggerPlan(model);
    ReadActs(s, 0, 0, model);
    assert Saver(TagEntry()).seen + TaggerRead().seen == TaggerRead().seen;
    assert AfterRead(s, 0, 0).clients == Before(TaggerRead(), OldText(), TextEntry()).clients;
  }

  function TagsLost(): System {
    System(map[ID := Tagged()], map[], map[ID := 1],
           [Done(TaggerRead()), Done(Remover()), Done(Reader(TextEntry(), None, 0))])
  }

  lemma TaggerSubmits(model: string)
    ensures Submission(TaggerRead(), model) == [Update(ID, "default", 1, TaggedFields())]
  {
    TaggerPlan(model);
    LastSubmits(TaggerRead(), Update(ID, "default", 1, TaggedFields()), ApplyFields(OldText(), TaggedFields()), model);
  }

  lemma TaggerCommits(model: string)
    ensures Acts(After(TaggerRead(), NewText(), TextEntry()), TagsLost(), 0, model)
  {
    var s := After(TaggerRead(), NewText(), TextEntry());
    var w := Update(ID, "default", 1, TaggedFields());
    TaggerSubmits(model);
    WriteActs(s, 0, w, model);
    assert IndexOf(s.concepts) == map[];
    assert s.clients[0 := Done(TaggerRead())] == TagsLost().clients;
    assert s.concepts[ID := Tagged()] == map[ID := Tagged()];
  }

  lemma TagIsLost()
    ensures "z" in TagsOf(map[ID := NewText()], ID) && "z" !in TagsOf(map[ID := Tagged()], ID)
  {
    assert "z" in ["z"];
    assert ["a", "b"][0] == "a" && ["a", "b"][1] == "b";
    assert "z" != "a" && "z" != "b" by {
      assert "z"[0] != "a"[0] && "z"[0] != "b"[0];
    }
  }

  /** A run from an ordinary store, with no overwrite and no expected version, that loses a tag. */
  lemma RecreationCanLoseTag(model: string) returns (run: seq<System>)
    ensures IsRun(run, model) && |run| == 6 && CarefulCalls(run[0])
    ensures "z" in TagsOf(run[4].concepts, ID) && "z" !in TagsOf(run[5].concepts, ID)
  {
    BeginsWell(Saver(TagEntry()), OldText(), TextEntry());
    TaggerReads(model);
    TextPlan(model);
    var before := DeleteAndCreate(Before(Saver(TagEntry()), OldText(), TextEntry()), TaggerRead(), OldText(), NewText(),
                                  TextEntry(), model);
    TaggerCommits(model);
    RunSnoc(before, After(TaggerRead(), NewText(), TextEntry()), TagsLost(), 0, model);
    run := before + [TagsLost()];
    TagIsLost();
  }

  // ---------------------------------------------- a lost authored vector

  function VectorEntry(): SaveEntry {
    SaveEntry(None, None, None, None, Some([1.0]), None, NOBODY, map[], false, Keep, Keep)
  }

  /** A vector derived from the row's own text. */
  function DerivedVector(): Row {
    Row(ID, "default", 1, 0, 0, [], Some("text"), None, Some([0.0]), Some("old"),
        map[Vector := Provenance(Derived, Some(Markdown), Some("old"), None, None)], None, None)
  }

  /** A vector that a caller wrote. */
  function AuthoredVector(model: string): Row {
    Row(ID, "default", 1, 0, 0, [], None, None, Some([1.0]), Some(model), map[Vector := Declared(VectorEntry())],
        None, None)
  }

  function InnerEntry(model: string): SaveEntry {
    ReembedEntry("default", 1, [2.0], Markdown, model)
  }

  function Converter(): Client {
    Start(Reembed(ID, "default", false))
  }

  /** The re-embedding has found a derived vector, which it may replace. */
  function Checked(model: string): Client {
    Converter().(items := [SaveItem(InnerEntry(model), ID, None)], check := Some(Read(Some(DerivedVector()), 0)),
                 status := Running)
  }

  /** Its inner save has read the authored one. */
  function ConverterRead(model: string): Client {
    Checked(model).(seen := [Read(Some(AuthoredVector(model)), 1)])
  }

  function ReplacedFields(model: string): UpdateFields {
    UpdateFields(Set(2), Set(0), Set([]), Keep, Keep, Set(Some([2.0])), Set(Some(model)),
                 Set(InnerEntry(model).provenance), Keep, Keep)
  }

  function Replaced(model: string): Row {
    ApplyFields(AuthoredVector(model), ReplacedFields(model))
  }

  lemma VectorPlan(model: string)
    ensures PlanItem(SaveItem(VectorEntry(), ID, None), None, 0, model)
      == Submits(Insert(AuthoredVector(model)), AuthoredVector(model))
  {
    var supplied := Supplied(VectorEntry(), None, SUPPLY_ORDER);
    forall rep ensures ProvenanceOf(supplied, rep) == ProvenanceOf(AuthoredVector(model).provenance, rep) {
      SuppliedEntry(VectorEntry(), None, rep);
    }
    SameProvenance(supplied, AuthoredVector(model).provenance);
    assert Dedupe([] + []) == [];
  }

  /** The version it expects is there, and it may overwrite: nothing tells the two rows apart. */
  lemma InnerPlan(model: string)
    ensures PlanItem(SaveItem(InnerEntry(model), ID, None), Some(AuthoredVector(model)), 0, model)
      == Submits(Update(ID, "default", 1, ReplacedFields(model)), Replaced(model))
  {
    var row := AuthoredVector(model);
    var supplied := Supplied(InnerEntry(model), Some(row), SUPPLY_ORDER);
    forall rep ensures ProvenanceOf(supplied, rep) == ProvenanceOf(InnerEntry(model).provenance, rep) {
      SuppliedEntry(InnerEntry(model), Some(row), rep);
    }
    SameProvenance(supplied, InnerEntry(model).provenance);
    assert Dedupe([] + []) == [];
  }

  lemma ConverterChecks(model: string)
    ensures Acts(Before(Converter(), DerivedVector(), VectorEntry()),
                 Before(Checked(model), DerivedVector(), VectorEntry()), 0, model)
  {
    var s := Before(Converter(), DerivedVector(), VectorEntry());
    var s' := Before(Checked(model), DerivedVector(), VectorEntry());
    assert s.clients[0 := Checked(model)] == s'.clients;
    assert CheckStep(s, s', 0, [2.0], Markdown, model);
  }

  lemma ConverterReads(model: string)
    ensures Acts(After(Checked(model), AuthoredVector(model), VectorEntry()),
                 After(ConverterRead(model), AuthoredVector(model), VectorEntry()), 0, model)
  {
    var s := After(Checked(model), AuthoredVector(model), VectorEntry());
    InnerPlan(model);
    ReadActs(s, 0, 0, model);
    assert Checked(model).seen + ConverterRead(model).seen == ConverterRead(model).seen;
    assert AfterRead(s, 0, 0).clients == After(ConverterRead(model), AuthoredVector(model), VectorEntry()).clients;
  }

  function AuthorLost(model: string): System {
    System(map[ID := Replaced(model)], IndexOf(map[ID := Replaced(model)]), map[ID := 1],
           [Done(ConverterRead(model)), Done(Remover()), Done(Reader(VectorEntry(), None, 0))])
  }

  lemma ConverterCommits(model: string)
    ensures Acts(After(ConverterRead(model), AuthoredVector(model), VectorEntry()), AuthorLost(model), 0, model)
  {
    var s := After(ConverterRead(model), AuthoredVector(model), VectorEntry());
    var w := Update(ID, "default", 1, ReplacedFields(model));
    ConverterSubmits(model);
    WriteActs(s, 0, w, model);
    ReplacesRow(model);
    assert s.clients[0 := Done(ConverterRead(model))] == AuthorLost(model).clients;
  }

  lemma ConverterSubmits(model: string)
    ensures Submission(ConverterRead(model), model) == [Update(ID, "default", 1, ReplacedFields(model))]
  {
    InnerPlan(model);
    LastSubmits(ConverterRead(model), Update(ID, "default", 1, ReplacedFields(model)), Replaced(model), model);
  }

  lemma ReplacesRow(model: string)
    ensures
      var concepts := map[ID := AuthoredVector(model)];
      var w := Update(ID, "default", 1, ReplacedFields(model));
      && Applies(concepts, w) && Written(concepts, w) == map[ID := Replaced(model)]
      && IndexWritten(IndexOf(concepts), w) == IndexOf(map[ID := Replaced(model)])
  {
    var concepts := map[ID := AuthoredVector(model)];
    assert concepts[ID := Replaced(model)] == map[ID := Replaced(model)];
    IndexFollowsWrite(concepts, Update(ID, "default", 1, ReplacedFields(model)));
  }

  /** A run in which a re-embedding without `overwrite` replaces an authored vector. */
  lemma RecreationCanLoseAuthor(model: string) returns (run: seq<System>)
    ensures IsRun(run, model) && |run| == 7 && CarefulCalls(run[0])
    ensures AuthoredAt(run[5], ID, Vector) && ID in run[6].concepts && !AuthoredAt(run[6], ID, Vector)
  {
    var before := ConverterWaits(model);
    var recreated := After(Checked(model), AuthoredVector(model), VectorEntry());
    var seen := After(ConverterRead(model), AuthoredVector(model), VectorEntry());
    ConverterReads(model);
    RunSnoc(before, recreated, seen, 0, model);
    ConverterCommits(model);
    RunSnoc(before + [seen], seen, AuthorLost(model), 0, model);
    run := before + [seen] + [AuthorLost(model)];
    AuthorIsLost(model);
  }

  lemma ConverterWaits(model: string) returns (run: seq<System>)
    ensures IsRun(run, model) && |run| == 5 && CarefulCalls(run[0])
    ensures run[4] == After(Checked(model), AuthoredVector(model), VectorEntry())
  {
    BeginsWell(Converter(), DerivedVector(), VectorEntry());
    ConverterChecks(model);
    VectorPlan(model);
    run := DeleteAndCreate(Before(Converter(), DerivedVector(), VectorEntry()), Checked(model), DerivedVector(),
                           AuthoredVector(model), VectorEntry(), model);
  }

  lemma AuthorIsLost(model: string)
    ensures AuthoredAt(After(ConverterRead(model), AuthoredVector(model), VectorEntry()), ID, Vector)
    ensures ID in AuthorLost(model).concepts && !AuthoredAt(AuthorLost(model), ID, Vector)
  {
  }
}
