/**
 What a save does, column by column, in terms of the entry, the derived vector and the row it
 finds: when it is accepted, what refuses it and what is stored.
 */
module SavedColumns {
  import opened Wrappers
  import opened Ordering
  import opened Rows
  import opened Planning

  /** A column that a save writes if the entry supplies it. */
  function Column<T>(supplied: Option<T>, stored: Option<T>): Option<T> {
    if supplied.Some? then supplied else stored
  }

  /** A column that the entry can also clear. */
  function Overridden<T>(given: Field<Option<T>>, stored: Option<T>): Option<T> {
    match given
    case Set(value) => value
    case Keep => stored
  }

  /** Content with a record of having been derived or written by a model. */
  predicate MadeByMachine(provenance: ProvenanceMap, rep: Representation) {
    rep in provenance && (provenance[rep].origin == Derived || provenance[rep].origin == Llm)
  }

  /** The provenance that goes with a supplied representation: its own, else what the entry declares. */
  function Given(entry: SaveEntry, rep: Representation): Provenance {
    if rep in entry.provenance then entry.provenance[rep]
    else
      var origin := if entry.source.origin.Some? then entry.source.origin.value else User;
      Provenance(origin, None, entry.source.model, entry.source.createdBy, None)
  }

  /**
   A derived vector is stored if none is supplied, if its text is the markdown of the entry or
   there is no stored markdown, and if no authored vector is there.
   */
  predicate DerivesVector(entry: SaveEntry, existing: Option<Row>, auto: Option<AutoVector>) {
    && entry.embedding == None && auto.Some?
    && (auto.value.from == Markdown || existing == None || existing.value.markdown == None)
    && (existing.Some? && existing.value.embedding.Some? ==> MadeByMachine(existing.value.provenance, Vector))
  }

  // --------------------------------------------------- when it is accepted

  /** The tags after the save, as a set. */
  function AllTags(entry: SaveEntry, existing: Option<Row>): set<string> {
    (if existing.Some? then set t | t in existing.value.tags else {})
    + if entry.tags.Some? then set t | t in entry.tags.value else {}
  }

  /** Machine-made content over authored content, without `overwrite`. */
  predicate Displaces(entry: SaveEntry, existing: Row, rep: Representation) {
    && !entry.overwrite
    && (match rep
        case Markdown => entry.markdown.Some? && existing.markdown.Some?
        case Thoughtform => entry.thoughtform.Some? && existing.thoughtform.Some?
        case Vector => entry.embedding.Some? && existing.embedding.Some?)
    && (Given(entry, rep).origin == Derived || Given(entry, rep).origin == Llm)
    && !MadeByMachine(existing.provenance, rep)
  }

  ghost predicate Acceptable(entry: SaveEntry, existing: Option<Row>, auto: Option<AutoVector>) {
    && |AllTags(entry, existing)| <= 64
    && match existing
       case Some(row) =>
         && (entry.namespace.Some? ==> entry.namespace.value == row.namespace)
         && (entry.expectedVersion.Some? ==> entry.expectedVersion.value == row.version)
         && forall rep :: !Displaces(entry, row, rep)
       case None =>
         && entry.expectedVersion == None
         && (entry.markdown.Some? || entry.thoughtform.Some? || entry.embedding.Some? || auto.Some?)
  }

  /** What refuses a save: the namespace, the version, an author, an empty concept, the tags, in this order. */
  ghost predicate RefusedBy(entry: SaveEntry, existing: Option<Row>, auto: Option<AutoVector>, e: PlanError) {
    match e
    case NamespaceDenied =>
      existing.Some? && entry.namespace.Some? && entry.namespace.value != existing.value.namespace
    case VersionConflict(expected, actual) =>
      && entry.expectedVersion == Some(expected)
      && actual == (if existing.Some? then existing.value.version else 0)
      && (existing.Some? ==> expected != actual)
    case OverwriteRefused(rep) =>
      && existing.Some? && Displaces(entry, existing.value, rep)
      && (rep == Thoughtform ==> !Displaces(entry, existing.value, Markdown))
      && (rep == Vector ==>
            !Displaces(entry, existing.value, Markdown) && !Displaces(entry, existing.value, Thoughtform))
    case NoRepresentation =>
      && existing == None && entry.markdown == None && entry.thoughtform == None
      && entry.embedding == None && auto == None
    case TooManyTags => |AllTags(entry, existing)| > 64
  }

  function Rank(e: PlanError): nat {
    match e
    case NamespaceDenied => 0
    case VersionConflict(_, _) => 1
    case OverwriteRefused(_) => 2
    case NoRepresentation => 3
    case TooManyTags => 4
  }

  lemma TagsFit(entry: SaveEntry, existing: Option<Row>)
    ensures
      var stored := if existing.Some? then existing.value.tags else [];
      MergeTags(stored, entry.tags).Some? <==> |AllTags(entry, existing)| <= 64
  {
    var stored := if existing.Some? then existing.value.tags else [];
    var tags := Dedupe(stored + entry.tags.GetOr([]));
    CountOfDistinct(tags);
    assert (set t | t in tags) == AllTags(entry, existing);
  }

  lemma DerivesAlike(entry: SaveEntry, existing: Option<Row>, auto: Option<AutoVector>)
    ensures TakesAuto(entry, existing, auto) <==> DerivesVector(entry, existing, auto)
  {
  }

  lemma RefusesAlike(entry: SaveEntry, existing: Option<Row>, rep: Representation)
    ensures Refuses(entry, existing, rep) <==> existing.Some? && Displaces(entry, existing.value, rep)
  {
  }

  lemma RefusedFirst(entry: SaveEntry, existing: Option<Row>)
    ensures
      var first := FirstRefused(entry, existing, SUPPLY_ORDER);
      && (first == None <==> forall rep :: !Refuses(entry, existing, rep))
      && (first.Some? ==>
            && Refuses(entry, existing, first.value)
            && (first.value == Thoughtform ==> !Refuses(entry, existing, Markdown))
            && (first.value == Vector ==>
                  !Refuses(entry, existing, Markdown) && !Refuses(entry, existing, Thoughtform)))
  {
    assert SUPPLY_ORDER[1..] == [Thoughtform, Vector] && SUPPLY_ORDER[1..][1..] == [Vector];
    forall rep: Representation ensures rep in SUPPLY_ORDER {
      match rep
      case Markdown => assert SUPPLY_ORDER[0] == rep;
      case Thoughtform => assert SUPPLY_ORDER[1] == rep;
      case Vector => assert SUPPLY_ORDER[2] == rep;
    }
  }

  /** A plan fails with the first thing that refuses the entry. */
  ghost predicate EndsRightly(entry: SaveEntry, existing: Option<Row>, auto: Option<AutoVector>,
                              plan: Result<PlannedWrite, PlanError>) {
    && (plan.Ok? <==> Acceptable(entry, existing, auto))
    && (plan.Err? ==>
          && RefusedBy(entry, existing, auto, plan.error)
          && forall e :: RefusedBy(entry, existing, auto, e) ==> Rank(plan.error) <= Rank(e))
  }

  lemma InsertEndsRightly(entry: SaveEntry, id: string, auto: Option<AutoVector>, now: int, model: string)
    ensures EndsRightly(entry, None, auto, PlanOf(entry, id, None, auto, now, model))
  {
    TagsFit(entry, None);
    DerivesAlike(entry, None, auto);
    RefusedFirst(entry, None);
  }

  lemma DisplacedFirst(entry: SaveEntry, row: Row, auto: Option<AutoVector>)
    ensures
      var first := FirstRefused(entry, Some(row), SUPPLY_ORDER);
      && (first == None <==> forall rep :: !Displaces(entry, row, rep))
      && (first.Some? ==> RefusedBy(entry, Some(row), auto, OverwriteRefused(first.value)))
  {
    RefusedFirst(entry, Some(row));
    RefusesAlike(entry, Some(row), Markdown);
    RefusesAlike(entry, Some(row), Thoughtform);
    RefusesAlike(entry, Some(row), Vector);
  }

  lemma UpdateEndsRightly(entry: SaveEntry, id: string, row: Row, auto: Option<AutoVector>, now: int, model: string)
    ensures EndsRightly(entry, Some(row), auto, PlanOf(entry, id, Some(row), auto, now, model))
  {
    TagsFit(entry, Some(row));
    DisplacedFirst(entry, row, auto);
  }

  /** A plan succeeds exactly for an acceptable entry, and otherwise names the first thing that refuses it. */
  lemma PlanSucceedsExactly(entry: SaveEntry, id: string, existing: Option<Row>, auto: Option<AutoVector>, now: int,
                            model: string)
    ensures EndsRightly(entry, existing, auto, PlanOf(entry, id, existing, auto, now, model))
  {
    match existing
    case None => InsertEndsRightly(entry, id, auto, now, model);
    case Some(row) => UpdateEndsRightly(entry, id, row, auto, now, model);
  }

  // --------------------------------------------------------- what is stored

  /** The row a save leaves, column by column. */
  ghost predicate IsSavedRow(entry: SaveEntry, id: string, existing: Option<Row>, auto: Option<AutoVector>, now: int,
                             model: string, row: Row) {
    var derives := DerivesVector(entry, existing, auto);
    && row.id == id && row.updatedAt == now
    && row.namespace == (if existing.Some? then existing.value.namespace
                         else if entry.namespace.Some? then entry.namespace.value else "default")
    && row.version == (if existing.Some? then existing.value.version + 1 else 1)
    && row.createdAt == (if existing.Some? then existing.value.createdAt else now)
    && row.markdown == Column(entry.markdown, if existing.Some? then existing.value.markdown else None)
    && row.thoughtform == Column(entry.thoughtform, if existing.Some? then existing.value.thoughtform else None)
    && row.embedding == (if entry.embedding.Some? then entry.embedding
                         else if derives then Some(auto.value.vector)
                         else if existing.Some? then existing.value.embedding else None)
    && row.embeddingModel == (if entry.embedding.Some? || derives then Some(model)
                              else if existing.Some? then existing.value.embeddingModel else None)
    && row.assertionStatus
       == Overridden(entry.assertionStatus, if existing.Some? then existing.value.assertionStatus else None)
    && row.ledgerRef == Overridden(entry.ledgerRef, if existing.Some? then existing.value.ledgerRef else None)
    && HasSavedTags(entry, existing, row) && HasSavedProvenance(entry, existing, auto, model, row)
  }

  /** Each tag once; those that were there, if they were distinct, in front and in their order. */
  ghost predicate HasSavedTags(entry: SaveEntry, existing: Option<Row>, row: Row) {
    && NoRepeats(row.tags) && (set t | t in row.tags) == AllTags(entry, existing)
    && (existing.Some? && NoRepeats(existing.value.tags) ==> existing.value.tags <= row.tags)
  }

  /** What is recorded of each representation: of the supplied content, of the derived vector or as before. */
  ghost predicate HasSavedProvenance(entry: SaveEntry, existing: Option<Row>, auto: Option<AutoVector>, model: string,
                                     row: Row) {
    var before := if existing.Some? then existing.value.provenance else map[];
    && Recorded(entry, before, Markdown, entry.markdown.Some?, row.provenance)
    && Recorded(entry, before, Thoughtform, entry.thoughtform.Some?, row.provenance)
    && if DerivesVector(entry, existing, auto) then
         Vector in row.provenance
         && row.provenance[Vector]
            == Provenance(Derived, Some(auto.value.from), Some(model), entry.source.createdBy, None)
       else Recorded(entry, before, Vector, entry.embedding.Some?, row.provenance)
  }

  ghost predicate Recorded(entry: SaveEntry, before: ProvenanceMap, rep: Representation, supplied: bool,
                           after: ProvenanceMap) {
    if supplied then rep in after && after[rep] == Given(entry, rep)
    else (rep in after <==> rep in before) && (rep in after ==> after[rep] == before[rep])
  }

  lemma {:induction false} DedupeInFront(xs: seq<string>, ys: seq<string>)
    requires NoRepeats(xs)
    ensures xs <= Dedupe(xs + ys)
    decreases |ys|
  {
    if ys == [] {
      DedupeKeeps(xs);
      assert xs + ys == xs;
    } else {
      var init := ys[..|ys| - 1];
      DedupeInFront(xs, init);
      assert (xs + ys)[..|xs + ys| - 1] == xs + init;
    }
  }

  lemma PlanSavesTags(entry: SaveEntry, id: string, existing: Option<Row>, auto: Option<AutoVector>, now: int,
                      model: string)
    requires PlanOf(entry, id, existing, auto, now, model).Ok?
    ensures HasSavedTags(entry, existing, PlanOf(entry, id, existing, auto, now, model).value.row)
  {
    var tags := PlanOf(entry, id, existing, auto, now, model).value.row.tags;
    PlanMergesTags(entry, id, existing, auto, now, model);
    assert (set t | t in tags) == AllTags(entry, existing);
    if existing.Some? && NoRepeats(existing.value.tags) {
      DedupeInFront(existing.value.tags, entry.tags.GetOr([]));
    }
  }

  lemma PlanSavesProvenance(entry: SaveEntry, id: string, existing: Option<Row>, auto: Option<AutoVector>, now: int,
                            model: string)
    requires PlanOf(entry, id, existing, auto, now, model).Ok?
    ensures HasSavedProvenance(entry, existing, auto, model, PlanOf(entry, id, existing, auto, now, model).value.row)
  {
    DerivesAlike(entry, existing, auto);
    SuppliedEntry(entry, existing, Markdown);
    SuppliedEntry(entry, existing, Thoughtform);
    SuppliedEntry(entry, existing, Vector);
  }

  /** Every column of the planned row: what the entry supplies, else the derived vector, else what was there. */
  lemma PlanSavesColumns(entry: SaveEntry, id: string, existing: Option<Row>, auto: Option<AutoVector>, now: int,
                         model: string)
    requires existing.Some? ==> existing.value.id == id
    requires PlanOf(entry, id, existing, auto, now, model).Ok?
    ensures IsSavedRow(entry, id, existing, auto, now, model, PlanOf(entry, id, existing, auto, now, model).value.row)
  {
    DerivesAlike(entry, existing, auto);
    PlanSavesTags(entry, id, existing, auto, now, model);
    PlanSavesProvenance(entry, id, existing, auto, now, model);
  }
}
