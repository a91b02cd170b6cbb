/** Planning a save: one validated entry and the row it was read against become one conditional write. */
module Planning {
  import opened Wrappers
  import opened Ordering
  import opened Rows

  const MAX_TAGS: nat := 64

  /** What a caller declares about the representations it supplies. */
  datatype Source = Source(origin: Option<Origin>, model: Option<string>, createdBy: Option<string>)

  datatype SaveEntry = SaveEntry(
    namespace: Option<string>,
    expectedVersion: Option<int>,
    markdown: Option<string>,
    thoughtform: Option<string>,
    embedding: Option<Embedding>,
    tags: Option<seq<string>>,
    source: Source,
    provenance: ProvenanceMap,
    overwrite: bool,
    assertionStatus: Field<Option<AssertionStatus>>,
    ledgerRef: Field<Option<string>>)

  /** A vector derived from the entry's own text. */
  datatype AutoVector = AutoVector(vector: Embedding, from: Representation)

  datatype PlanError =
    | NamespaceDenied
    | VersionConflict(expected: int, actual: int)
    | OverwriteRefused(rep: Representation)
    | NoRepresentation
    | TooManyTags

  datatype PlannedWrite = PlannedWrite(write: Write, row: Row, created: bool, embedding: Option<Embedding>)

  // ------------------------------------------------------------------ tags

  /** `[...new Set(xs)]`. */
  function Dedupe(xs: seq<string>): (r: seq<string>)
    ensures NoRepeats(r) && forall x :: x in r <==> x in xs
  {
    if xs == [] then []
    else
      var before := Dedupe(xs[..|xs| - 1]);
      var x := xs[|xs| - 1];
      assert xs == xs[..|xs| - 1] + [x];
      if x in before then before else before + [x]
  }

  lemma {:induction false} DedupeKeeps(xs: seq<string>)
    requires NoRepeats(xs)
    ensures Dedupe(xs) == xs
  {
    if xs != [] {
      DedupeKeeps(xs[..|xs| - 1]);
      assert xs == xs[..|xs| - 1] + [xs[|xs| - 1]];
    }
  }

  function MergeTags(existing: seq<string>, added: Option<seq<string>>): Option<seq<string>> {
    var tags := Dedupe(existing + added.GetOr([]));
    if |tags| > MAX_TAGS then None else Some(tags)
  }

  // ------------------------------------------------------------ provenance

  predicate Supplies(entry: SaveEntry, rep: Representation) {
    match rep
    case Markdown => entry.markdown.Some?
    case Thoughtform => entry.thoughtform.Some?
    case Vector => entry.embedding.Some?
  }

  function Declared(entry: SaveEntry): Provenance {
    Provenance(entry.source.origin.GetOr(User), None, entry.source.model, entry.source.createdBy, None)
  }

  /** The provenance recorded for a supplied representation. */
  function NextProvenance(entry: SaveEntry, rep: Representation): Provenance {
    ProvenanceOf(entry.provenance, rep).GetOr(Declared(entry))
  }

  /** Machine-made content may not replace authored content without `overwrite`. */
  predicate Refuses(entry: SaveEntry, existing: Option<Row>, rep: Representation) {
    && Supplies(entry, rep)
    && IsMachineMade(Some(NextProvenance(entry, rep)))
    && existing.Some? && Authored(existing.value, rep)
    && !entry.overwrite
  }

  const SUPPLY_ORDER: seq<Representation> := [Markdown, Thoughtform, Vector]

  function ExistingProvenance(existing: Option<Row>): ProvenanceMap {
    if existing.Some? then existing.value.provenance else map[]
  }

  function Supplied(entry: SaveEntry, existing: Option<Row>, reps: seq<Representation>): ProvenanceMap {
    if reps == [] then ExistingProvenance(existing)
    else
      var before := Supplied(entry, existing, reps[..|reps| - 1]);
      var rep := reps[|reps| - 1];
      if Supplies(entry, rep) then before[rep := NextProvenance(entry, rep)] else before
  }

  function FirstRefused(entry: SaveEntry, existing: Option<Row>, reps: seq<Representation>): (r: Option<Representation>)
    ensures r.None? <==> forall rep :: rep in reps ==> !Refuses(entry, existing, rep)
    ensures r.Some? ==> r.value in reps && Refuses(entry, existing, r.value)
  {
    if reps == [] then None
    else if Refuses(entry, existing, reps[0]) then Some(reps[0])
    else FirstRefused(entry, existing, reps[1..])
  }

  /** Whether the derived vector is written: its source text changes and no authored vector is there. */
  predicate TakesAuto(entry: SaveEntry, existing: Option<Row>, auto: Option<AutoVector>) {
    && entry.embedding.None? && auto.Some?
    && (auto.value.from.Markdown? || existing.None? || existing.value.markdown.None?)
    && !(existing.Some? && Authored(existing.value, Vector))
  }

  function AutoProvenance(entry: SaveEntry, auto: AutoVector, model: string): Provenance {
    Provenance(Derived, Some(auto.from), Some(model), entry.source.createdBy, None)
  }

  function NewProvenance(entry: SaveEntry, existing: Option<Row>, auto: Option<AutoVector>,
                         model: string): ProvenanceMap {
    var supplied := Supplied(entry, existing, SUPPLY_ORDER);
    if TakesAuto(entry, existing, auto) then supplied[Vector := AutoProvenance(entry, auto.value, model)] else supplied
  }

  function NewEmbedding(entry: SaveEntry, existing: Option<Row>, auto: Option<AutoVector>): Option<Embedding> {
    if TakesAuto(entry, existing, auto) then Some(auto.value.vector) else entry.embedding
  }

  // ------------------------------------------------------------- the plan

  function Guard(entry: SaveEntry, existing: Option<Row>): Option<PlanError> {
    if existing.Some? then
      if entry.namespace.Some? && entry.namespace.value != existing.value.namespace then Some(NamespaceDenied)
      else if entry.expectedVersion.Some? && entry.expectedVersion.value != existing.value.version then
        Some(VersionConflict(entry.expectedVersion.value, existing.value.version))
      else None
    else if entry.expectedVersion.Some? then Some(VersionConflict(entry.expectedVersion.value, 0))
    else None
  }

  function SetIfSome<T>(o: Option<T>): Field<Option<T>> {
    if o.Some? then Set(o) else Keep
  }

  function PlanInsert(entry: SaveEntry, id: string, provenance: ProvenanceMap, embedding: Option<Embedding>,
                      now: int, model: string): Result<PlannedWrite, PlanError> {
    if entry.markdown.None? && entry.thoughtform.None? && embedding.None? then Err(NoRepresentation)
    else
      var tags := MergeTags([], entry.tags);
      if tags.None? then Err(TooManyTags)
      else
        var row := Row(id, entry.namespace.GetOr("default"), 1, now, now, tags.value, entry.markdown,
                       entry.thoughtform, embedding, if embedding.Some? then Some(model) else None, provenance,
                       entry.assertionStatus.Or(None), entry.ledgerRef.Or(None));
        Ok(PlannedWrite(Insert(row), row, true, embedding))
  }

  function PlanUpdate(entry: SaveEntry, id: string, existing: Row, provenance: ProvenanceMap,
                      embedding: Option<Embedding>, now: int, model: string): Result<PlannedWrite, PlanError> {
    var tags := MergeTags(existing.tags, entry.tags);
    if tags.None? then Err(TooManyTags)
    else
      var fields := UpdateFields(Set(existing.version + 1), Set(now), Set(tags.value),
                                 SetIfSome(entry.markdown), SetIfSome(entry.thoughtform), SetIfSome(embedding),
                                 if embedding.Some? then Set(Some(model)) else Keep,
                                 Set(provenance), entry.assertionStatus, entry.ledgerRef);
      var row := existing.(version := existing.version + 1, updatedAt := now, tags := tags.value,
                           markdown := if entry.markdown.Some? then entry.markdown else existing.markdown,
                           thoughtform := if entry.thoughtform.Some? then entry.thoughtform else existing.thoughtform,
                           embedding := if embedding.Some? then embedding else existing.embedding,
                           embeddingModel := if embedding.Some? then Some(model) else existing.embeddingModel,
                           provenance := provenance,
                           assertionStatus := entry.assertionStatus.Or(existing.assertionStatus),
                           ledgerRef := entry.ledgerRef.Or(existing.ledgerRef));
      Ok(PlannedWrite(Update(id, existing.namespace, existing.version, fields), row, false, embedding))
  }

  /** The plan as a function of the entry and the row read. */
  function PlanOf(entry: SaveEntry, id: string, existing: Option<Row>, auto: Option<AutoVector>, now: int,
                  model: string)
    : Result<PlannedWrite, PlanError>
  {
    var guard := Guard(entry, existing);
    var refused := FirstRefused(entry, existing, SUPPLY_ORDER);
    if guard.Some? then Err(guard.value)
    else if refused.Some? then Err(OverwriteRefused(refused.value))
    else
      var provenance := NewProvenance(entry, existing, auto, model);
      var embedding := NewEmbedding(entry, existing, auto);
      if existing.None? then PlanInsert(entry, id, provenance, embedding, now, model)
      else PlanUpdate(entry, id, existing.value, provenance, embedding, now, model)
  }

  /** One more representation. */
  lemma SupplyStep(entry: SaveEntry, existing: Option<Row>, i: nat)
    requires i < 3
    ensures
      var rep, before := SUPPLY_ORDER[i], Supplied(entry, existing, SUPPLY_ORDER[..i]);
      Supplied(entry, existing, SUPPLY_ORDER[..i + 1])
      == if Supplies(entry, rep) then before[rep := NextProvenance(entry, rep)] else before
    ensures
      var rep := SUPPLY_ORDER[i];
      FirstRefused(entry, existing, SUPPLY_ORDER[i..])
      == if Refuses(entry, existing, rep) then Some(rep) else FirstRefused(entry, existing, SUPPLY_ORDER[i + 1..])
    ensures ProvenanceOf(Supplied(entry, existing, SUPPLY_ORDER[..i]), SUPPLY_ORDER[i])
      == ProvenanceOf(ExistingProvenance(existing), SUPPLY_ORDER[i])
  {
    assert SUPPLY_ORDER[i..][0] == SUPPLY_ORDER[i] && SUPPLY_ORDER[i..][1..] == SUPPLY_ORDER[i + 1..];
    assert SUPPLY_ORDER[..i + 1][..i] == SUPPLY_ORDER[..i];
    NotSupplied(entry, existing, SUPPLY_ORDER[..i], SUPPLY_ORDER[i]);
  }

  lemma {:induction false} NotSupplied(entry: SaveEntry, existing: Option<Row>, reps: seq<Representation>,
                                       rep: Representation)
    requires rep !in reps
    ensures ProvenanceOf(Supplied(entry, existing, reps), rep) == ProvenanceOf(ExistingProvenance(existing), rep)
  {
    if reps != [] {
      NotSupplied(entry, existing, reps[..|reps| - 1], rep);
    }
  }

  /** The planning loop: a local provenance map is checked and filled representation by representation. */
  method Plan(entry: SaveEntry, id: string, existing: Option<Row>, auto: Option<AutoVector>, now: int, model: string)
    returns (r: Result<PlannedWrite, PlanError>)
    ensures r == PlanOf(entry, id, existing, auto, now, model)
  {
    var guard := Guard(entry, existing);
    if guard.Some? {
      return Err(guard.value);
    }
    var provenance := ExistingProvenance(existing);
    for i := 0 to 3
      invariant provenance == Supplied(entry, existing, SUPPLY_ORDER[..i])
      invariant FirstRefused(entry, existing, SUPPLY_ORDER) == FirstRefused(entry, existing, SUPPLY_ORDER[i..])
    {
      var rep := SUPPLY_ORDER[i];
      SupplyStep(entry, existing, i);
      if Supplies(entry, rep) {
        var next := NextProvenance(entry, rep);
        if IsMachineMade(Some(next)) && existing.Some? && HasRepresentation(existing.value, rep)
           && !IsMachineMade(ProvenanceOf(provenance, rep)) && !entry.overwrite {
          return Err(OverwriteRefused(rep));
        }
        provenance := provenance[rep := next];
      }
    }
    assert SUPPLY_ORDER[..3] == SUPPLY_ORDER && SUPPLY_ORDER[3..] == [];
    if TakesAuto(entry, existing, auto) {
      provenance := provenance[Vector := AutoProvenance(entry, auto.value, model)];
    }
    var embedding := NewEmbedding(entry, existing, auto);
    r := if existing.None? then PlanInsert(entry, id, provenance, embedding, now, model)
         else PlanUpdate(entry, id, existing.value, provenance, embedding, now, model);
  }

  // ------------------------------------------------------ what plans keep

  lemma SuppliedEntry(entry: SaveEntry, existing: Option<Row>, rep: Representation)
    ensures ProvenanceOf(Supplied(entry, existing, SUPPLY_ORDER), rep)
         == if Supplies(entry, rep) then Some(NextProvenance(entry, rep))
            else ProvenanceOf(ExistingProvenance(existing), rep)
  {
    var r2 := SUPPLY_ORDER[..2];
    assert r2[..1] == [Markdown];
    assert Supplied(entry, existing, [Markdown][..0]) == ExistingProvenance(existing);
    assert Supplied(entry, existing, r2) ==
      if Supplies(entry, Thoughtform) then
        Supplied(entry, existing, [Markdown])[Thoughtform := NextProvenance(entry, Thoughtform)]
      else Supplied(entry, existing, [Markdown]);
  }

  lemma SameProvenance(a: ProvenanceMap, b: ProvenanceMap)
    requires forall rep :: ProvenanceOf(a, rep) == ProvenanceOf(b, rep)
    ensures a == b
  {
    assert forall rep :: rep in a <==> ProvenanceOf(a, rep).Some?;
    assert forall rep :: rep in b <==> ProvenanceOf(b, rep).Some?;
  }

  /** The concept handed back to the caller is the row that gets stored. */
  lemma PlanIsStored(entry: SaveEntry, id: string, existing: Option<Row>, auto: Option<AutoVector>, now: int,
                     model: string, concepts: map<string, Row>)
    requires Find(concepts, id) == existing && (existing.Some? ==> existing.value.id == id)
    requires PlanOf(entry, id, existing, auto, now, model).Ok?
    ensures var p := PlanOf(entry, id, existing, auto, now, model).value;
      && WriteId(p.write) == id && p.row.id == id && (p.write.Update? ==> HasFields(p.write.fields))
      && Applies(concepts, p.write) && Left(concepts, p.write) == Some(p.row)
  {
  }

  /** An update raises the version by one and keeps identity, namespace and creation time. */
  lemma PlanRaisesVersion(entry: SaveEntry, id: string, existing: Option<Row>, auto: Option<AutoVector>, now: int,
                          model: string)
    requires PlanOf(entry, id, existing, auto, now, model).Ok?
    ensures var row := PlanOf(entry, id, existing, auto, now, model).value.row;
      row.version == (if existing.Some? then existing.value.version + 1 else 1)
      && (existing.Some? ==> row.namespace == existing.value.namespace && row.createdAt == existing.value.createdAt)
      && (entry.namespace.Some? ==> row.namespace == entry.namespace.value)
  {
  }

  /** The merged tags are exactly the stored and the added ones, each once. */
  lemma PlanMergesTags(entry: SaveEntry, id: string, existing: Option<Row>, auto: Option<AutoVector>, now: int,
                       model: string)
    requires PlanOf(entry, id, existing, auto, now, model).Ok?
    ensures var row := PlanOf(entry, id, existing, auto, now, model).value.row;
      && NoRepeats(row.tags) && |row.tags| <= MAX_TAGS
      && forall t :: t in row.tags
           <==> (existing.Some? && t in existing.value.tags) || (entry.tags.Some? && t in entry.tags.value)
  {
  }

  /** A plan without `overwrite` leaves authored content authored: kept, or replaced by authored content. */
  lemma PlanRespectsAuthors(entry: SaveEntry, id: string, existing: Row, auto: Option<AutoVector>, now: int,
                            model: string, rep: Representation)
    requires PlanOf(entry, id, Some(existing), auto, now, model).Ok?
    requires !entry.overwrite || !Supplies(entry, rep)
    requires Authored(existing, rep)
    ensures Authored(PlanOf(entry, id, Some(existing), auto, now, model).value.row, rep)
  {
    SuppliedEntry(entry, Some(existing), rep);
    assert rep in SUPPLY_ORDER;
    assert !entry.overwrite ==> !Refuses(entry, Some(existing), rep);
  }

  /** No save takes a representation away. */
  lemma PlanKeepsRepresentations(entry: SaveEntry, id: string, existing: Row, auto: Option<AutoVector>, now: int,
                                 model: string, rep: Representation)
    requires PlanOf(entry, id, Some(existing), auto, now, model).Ok?
    requires HasRepresentation(existing, rep)
    ensures HasRepresentation(PlanOf(entry, id, Some(existing), auto, now, model).value.row, rep)
  {
  }
}
