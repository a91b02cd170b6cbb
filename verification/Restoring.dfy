/** Restoring concepts from a backup: per record an insert, an update or a reason to skip. */
module Restoring {
  import opened Wrappers
  import opened Rows
  import opened SqliteStore

  datatype RestoreRecord = RestoreRecord(
    id: string,
    namespace: string,
    version: int,
    createdAt: int,
    updatedAt: int,
    tags: seq<string>,
    markdown: Option<string>,
    thoughtform: Option<string>,
    embedding: Option<Embedding>,
    provenance: ProvenanceMap,
    assertionStatus: Option<AssertionStatus>,
    ledgerRef: Option<string>)

  datatype ConflictPolicy = Newer | Overwrite | Skip

  datatype SkipReason = Exists | NotNewer | OtherNamespace

  /** What is decided for one record. */
  datatype Decision =
    | Skipped(reason: SkipReason)
    | Restores(write: Write, row: Row)

  /** Only vectors made by the configured model are restored, so they carry its name. */
  function ModelOf(r: RestoreRecord, model: string): Option<string> {
    if r.embedding.Some? then Some(model) else None
  }

  function RestoredRow(r: RestoreRecord, model: string): Row {
    Row(r.id, r.namespace, r.version, r.createdAt, r.updatedAt, r.tags, r.markdown, r.thoughtform,
        r.embedding, ModelOf(r, model), r.provenance, r.assertionStatus, r.ledgerRef)
  }

  function Later(a: int, b: int): int {
    if a < b then b else a
  }

  function RestoreFields(r: RestoreRecord, existing: Row, model: string): UpdateFields {
    UpdateFields(Set(existing.version + 1), Set(Later(r.updatedAt, existing.updatedAt + 1)), Set(r.tags),
                 Set(r.markdown), Set(r.thoughtform), Set(r.embedding), Set(ModelOf(r, model)),
                 Set(r.provenance), Set(r.assertionStatus), Set(r.ledgerRef))
  }

  function Decide(r: RestoreRecord, existing: Option<Row>, policy: ConflictPolicy, model: string): Decision {
    if existing.None? then Restores(Insert(RestoredRow(r, model)), RestoredRow(r, model))
    else if existing.value.namespace != r.namespace then Skipped(OtherNamespace)
    else if policy.Skip? then Skipped(Exists)
    else if policy.Newer? && r.updatedAt <= existing.value.updatedAt then Skipped(NotNewer)
    else
      var fields := RestoreFields(r, existing.value, model);
      Restores(Update(r.id, existing.value.namespace, existing.value.version, fields),
               ApplyFields(existing.value, fields))
  }

  /** What a decided write does, whatever the policy. */
  lemma DecisionIsStored(r: RestoreRecord, policy: ConflictPolicy, model: string, concepts: map<string, Row>)
    requires Keyed(concepts)
    requires Decide(r, Find(concepts, r.id), policy, model).Restores?
    ensures var d := Decide(r, Find(concepts, r.id), policy, model);
      && WriteId(d.write) == r.id && d.row.id == r.id && (d.write.Update? ==> HasFields(d.write.fields))
      && Applies(concepts, d.write) && Left(concepts, d.write) == Some(d.row)
  {
  }

  /** An update stays in its namespace and strictly raises the version and the update time. */
  lemma RestoreRaises(r: RestoreRecord, existing: Row, policy: ConflictPolicy, model: string)
    requires Decide(r, Some(existing), policy, model).Restores?
    ensures var row := Decide(r, Some(existing), policy, model).row;
      && row.namespace == existing.namespace == r.namespace
      && row.version == existing.version + 1
      && row.updatedAt > existing.updatedAt && row.updatedAt >= r.updatedAt
      && row.createdAt == existing.createdAt
  {
  }

  // ------------------------------------------------------ a whole backup

  /** The table after one record, on its own. */
  function RestoreEach(concepts: map<string, Row>, r: RestoreRecord, policy: ConflictPolicy, model: string)
    : map<string, Row>
  {
    match Decide(r, Find(concepts, r.id), policy, model)
    case Skipped(_) => concepts
    case Restores(_, row) => concepts[r.id := row]
  }

  function RestoreAll(concepts: map<string, Row>, records: seq<RestoreRecord>, policy: ConflictPolicy, model: string)
    : map<string, Row>
  {
    if records == [] then concepts
    else
      RestoreEach(RestoreAll(concepts, records[..|records| - 1], policy, model), records[|records| - 1], policy, model)
  }

  ghost predicate DistinctRecords(records: seq<RestoreRecord>) {
    forall i, j :: 0 <= i < j < |records| ==> records[i].id != records[j].id
  }

  /** The writes planned for all records from one state. */
  function PlannedWrites(concepts: map<string, Row>, records: seq<RestoreRecord>, policy: ConflictPolicy, model: string)
    : seq<Write>
  {
    if records == [] then []
    else
      var before := PlannedWrites(concepts, records[..|records| - 1], policy, model);
      var r := records[|records| - 1];
      match Decide(r, Find(concepts, r.id), policy, model)
      case Skipped(_) => before
      case Restores(w, _) => before + [w]
  }

  datatype RestoreOutcome = RestoreOutcome(
    inserted: seq<string>, updated: seq<string>, skipped: seq<(string, SkipReason)>)

  function Report(concepts: map<string, Row>, records: seq<RestoreRecord>, policy: ConflictPolicy, model: string)
    : RestoreOutcome
  {
    if records == [] then RestoreOutcome([], [], [])
    else
      var before := Report(concepts, records[..|records| - 1], policy, model);
      var r := records[|records| - 1];
      match Decide(r, Find(concepts, r.id), policy, model)
      case Skipped(reason) => before.(skipped := before.skipped + [(r.id, reason)])
      case Restores(Insert(_), _) => before.(inserted := before.inserted + [r.id])
      case Restores(_, _) => before.(updated := before.updated + [r.id])
  }

  predicate HasDuplicate(records: seq<RestoreRecord>) {
    exists i, j :: 0 <= i < j < |records| && records[i].id == records[j].id
  }

  // ------------------------------------------- what it does, column by column

  /** The row holds the content of the record; a vector comes with the configured model's name. */
  predicate HoldsContent(row: Row, r: RestoreRecord, model: string) {
    && row.tags == r.tags && row.markdown == r.markdown && row.thoughtform == r.thoughtform
    && row.embedding == r.embedding && row.embeddingModel == (if r.embedding.Some? then Some(model) else None)
    && row.provenance == r.provenance && row.assertionStatus == r.assertionStatus && row.ledgerRef == r.ledgerRef
  }

  /** Why a stored row stays as it is. */
  function WhySkipped(r: RestoreRecord, row: Row, policy: ConflictPolicy): Option<SkipReason> {
    if row.namespace != r.namespace then Some(OtherNamespace)
    else
      match policy
      case Overwrite => None
      case Skip => Some(Exists)
      case Newer => if r.updatedAt > row.updatedAt then None else Some(NotNewer)
  }

  /** What becomes of a concept that the backup holds. */
  ghost predicate IsRestored(before: Option<Row>, r: RestoreRecord, policy: ConflictPolicy, model: string,
                             after: Option<Row>) {
    match before
    case None =>
      && after.Some? && HoldsContent(after.value, r, model)
      && after.value.id == r.id && after.value.namespace == r.namespace && after.value.version == r.version
      && after.value.createdAt == r.createdAt && after.value.updatedAt == r.updatedAt
    case Some(row) =>
      if WhySkipped(r, row, policy).Some? then after == before
      else
        && after.Some? && HoldsContent(after.value, r, model)
        && after.value.id == row.id && after.value.namespace == row.namespace
        && after.value.createdAt == row.createdAt && after.value.version == row.version + 1
        && after.value.updatedAt == (if r.updatedAt > row.updatedAt then r.updatedAt else row.updatedAt + 1)
  }

  /** Every record is restored as its policy says, and concepts that the backup does not hold stay. */
  ghost predicate EachIsRestored(before: map<string, Row>, records: seq<RestoreRecord>, policy: ConflictPolicy,
                                 model: string, after: map<string, Row>) {
    && (forall r :: r in records ==> IsRestored(Find(before, r.id), r, policy, model, Find(after, r.id)))
    && forall id :: (forall r :: r in records ==> r.id != id) ==> Find(after, id) == Find(before, id)
  }

  lemma RestoresOne(concepts: map<string, Row>, r: RestoreRecord, policy: ConflictPolicy, model: string)
    ensures
      IsRestored(Find(concepts, r.id), r, policy, model, Find(RestoreEach(concepts, r, policy, model), r.id))
  {
  }

  lemma {:induction false} RestoresAt(concepts: map<string, Row>, records: seq<RestoreRecord>, policy: ConflictPolicy,
                                      model: string, k: nat)
    requires DistinctRecords(records) && k < |records|
    ensures
      var r := records[k];
      IsRestored(Find(concepts, r.id), r, policy, model, Find(RestoreAll(concepts, records, policy, model), r.id))
  {
    var n := |records| - 1;
    var init, last := records[..n], records[n];
    if k < n {
      RestoresAt(concepts, init, policy, model, k);
      assert init[k] == records[k] && last.id != records[k].id;
    } else {
      RestoreAllElsewhere(concepts, init, policy, model, last.id);
      RestoresOne(RestoreAll(concepts, init, policy, model), last, policy, model);
    }
  }

  /** A restore does to each concept what its record, its row and the policy say. */
  lemma RestoreAllRestoresEach(concepts: map<string, Row>, records: seq<RestoreRecord>, policy: ConflictPolicy,
                               model: string)
    requires DistinctRecords(records)
    ensures EachIsRestored(concepts, records, policy, model, RestoreAll(concepts, records, policy, model))
  {
    var after := RestoreAll(concepts, records, policy, model);
    forall r | r in records ensures IsRestored(Find(concepts, r.id), r, policy, model, Find(after, r.id)) {
      var k :| 0 <= k < |records| && records[k] == r;
      RestoresAt(concepts, records, policy, model, k);
    }
    forall id | forall r :: r in records ==> r.id != id ensures Find(after, id) == Find(concepts, id) {
      RestoreAllElsewhere(concepts, records, policy, model, id);
    }
  }

  /** The ids of the records that meet a condition, in the order of the backup. */
  function IdsOf(records: seq<RestoreRecord>, meets: RestoreRecord -> bool): seq<string> {
    if records == [] then []
    else
      var r := records[|records| - 1];
      IdsOf(records[..|records| - 1], meets) + if meets(r) then [r.id] else []
  }

  /** Inserted are the ids that were not stored, updated the stored ones that nothing skips; others have a reason. */
  ghost predicate IsReport(concepts: map<string, Row>, records: seq<RestoreRecord>, policy: ConflictPolicy,
                           outcome: RestoreOutcome) {
    && outcome.inserted == IdsOf(records, (r: RestoreRecord) => r.id !in concepts)
    && outcome.updated
       == IdsOf(records, (r: RestoreRecord) => r.id in concepts && WhySkipped(r, concepts[r.id], policy).None?)
    && Firsts(outcome.skipped)
       == IdsOf(records, (r: RestoreRecord) => r.id in concepts && WhySkipped(r, concepts[r.id], policy).Some?)
    && forall p :: p in outcome.skipped ==> exists r :: r in records && SkippedFor(concepts, r, policy, p)
  }

  ghost predicate SkippedFor(concepts: map<string, Row>, r: RestoreRecord, policy: ConflictPolicy,
                             p: (string, SkipReason)) {
    p.0 == r.id && r.id in concepts && WhySkipped(r, concepts[r.id], policy) == Some(p.1)
  }

  function Firsts(ps: seq<(string, SkipReason)>): (ids: seq<string>)
    ensures |ids| == |ps| && forall i :: 0 <= i < |ps| ==> ids[i] == ps[i].0
  {
    seq(|ps|, i requires 0 <= i < |ps| => ps[i].0)
  }

  lemma {:induction false} ReportIsExact(concepts: map<string, Row>, records: seq<RestoreRecord>,
                                         policy: ConflictPolicy, model: string)
    ensures IsReport(concepts, records, policy, Report(concepts, records, policy, model))
  {
    if records != [] {
      var init, r := records[..|records| - 1], records[|records| - 1];
      ReportIsExact(concepts, init, policy, model);
      assert records == init + [r];
      OneMoreReported(concepts, init, r, policy, model, Report(concepts, init, policy, model));
    }
  }

  lemma OneMoreReported(concepts: map<string, Row>, init: seq<RestoreRecord>, r: RestoreRecord, policy: ConflictPolicy,
                        model: string, before: RestoreOutcome)
    requires IsReport(concepts, init, policy, before) && before == Report(concepts, init, policy, model)
    ensures IsReport(concepts, init + [r], policy, Report(concepts, init + [r], policy, model))
  {
    assert (init + [r])[..|init|] == init;
    var after := Report(concepts, init + [r], policy, model);
    forall p | p in after.skipped ensures exists x :: x in init + [r] && SkippedFor(concepts, x, policy, p) {
      if p in before.skipped {
        var x :| x in init && SkippedFor(concepts, x, policy, p);
        assert x in init + [r];
      } else {
        assert r in init + [r] && SkippedFor(concepts, r, policy, p);
      }
    }
  }

  /** One attempt without concurrent writers: read and decide every record, then one batch. */
  method Restore(store: SqliteAdapter, records: seq<RestoreRecord>, policy: ConflictPolicy, model: string)
    returns (r: Result<RestoreOutcome, string>)
    requires store.Valid()
    modifies store
    ensures store.Valid()
    ensures HasDuplicate(records) <==> r.Err?
    ensures r.Err? ==> store.concepts == old(store.concepts) && store.vectors == old(store.vectors)
    ensures r.Ok? ==> EachIsRestored(old(store.concepts), records, policy, model, store.concepts)
    ensures r.Ok? ==> IsReport(old(store.concepts), records, policy, r.value)
    ensures r.Ok? ==> store.concepts == RestoreAll(old(store.concepts), records, policy, model)
    ensures r.Ok? ==> r.value == Report(old(store.concepts), records, policy, model)
  {
    if HasDuplicate(records) {
      return Err("a backup cannot contain the same concept id twice");
    }
    var writes: seq<Write> := [];
    var outcome := RestoreOutcome([], [], []);
    for i := 0 to |records|
      invariant store.concepts == old(store.concepts) && store.vectors == old(store.vectors)
      invariant writes == PlannedWrites(store.concepts, records[..i], policy, model)
      invariant outcome == Report(store.concepts, records[..i], policy, model)
    {
      var record := records[i];
      assert records[..i + 1][..i] == records[..i];
      var existing := store.FindConcept(record.id);
      match Decide(record, existing, policy, model) {
        case Skipped(reason) =>
          outcome := outcome.(skipped := outcome.skipped + [(record.id, reason)]);
        case Restores(w, _) =>
          writes := writes + [w];
          outcome := if w.Insert? then outcome.(inserted := outcome.inserted + [record.id])
                     else outcome.(updated := outcome.updated + [record.id]);
      }
    }
    assert records[..|records|] == records;
    BatchIsRestoreAll(store.concepts, records, policy, model);
    RestoreAllRestoresEach(store.concepts, records, policy, model);
    ReportIsExact(store.concepts, records, policy, model);
    if writes != [] {
      var applied := store.ApplyWrites(writes);
      assert applied.Applied?;
    }
    return Ok(outcome);
  }

  lemma {:induction false} RestoreAllElsewhere(concepts: map<string, Row>, records: seq<RestoreRecord>,
                                               policy: ConflictPolicy, model: string, id: string)
    requires forall r :: r in records ==> r.id != id
    ensures Find(RestoreAll(concepts, records, policy, model), id) == Find(concepts, id)
  {
    if records != [] {
      RestoreAllElsewhere(concepts, records[..|records| - 1], policy, model, id);
    }
  }

  lemma {:induction false} RestoreAllKeyed(concepts: map<string, Row>, records: seq<RestoreRecord>,
                                           policy: ConflictPolicy, model: string)
    requires Keyed(concepts)
    ensures Keyed(RestoreAll(concepts, records, policy, model))
  {
    if records != [] {
      RestoreAllKeyed(concepts, records[..|records| - 1], policy, model);
    }
  }

  /** Deciding all records first and writing one batch is the same as restoring them one by one. */
  lemma {:induction false} BatchIsRestoreAll(concepts: map<string, Row>, records: seq<RestoreRecord>,
                                             policy: ConflictPolicy, model: string)
    requires DistinctRecords(records) && Keyed(concepts)
    ensures Outcome(concepts, PlannedWrites(concepts, records, policy, model), 0).Applied?
    ensures WrittenAll(concepts, PlannedWrites(concepts, records, policy, model))
         == RestoreAll(concepts, records, policy, model)
  {
    if records != [] {
      var init, r := records[..|records| - 1], records[|records| - 1];
      BatchIsRestoreAll(concepts, init, policy, model);
      var before := RestoreAll(concepts, init, policy, model);
      RestoreAllElsewhere(concepts, init, policy, model, r.id);
      RestoreAllKeyed(concepts, init, policy, model);
      var d := Decide(r, Find(concepts, r.id), policy, model);
      if d.Restores? {
        DecisionIsStored(r, policy, model, before);
        BatchSnoc(concepts, PlannedWrites(concepts, init, policy, model), d.write);
        assert Written(before, d.write) == before[r.id := d.row];
      }
    }
  }

  // -------------------------------------------------- restoring twice

  /** What a record must find so that `newer` skips it. */
  predicate UpToDate(existing: Option<Row>, r: RestoreRecord) {
    existing.Some? && (existing.value.namespace != r.namespace || r.updatedAt <= existing.value.updatedAt)
  }

  lemma {:induction false} RestoredIsUpToDate(concepts: map<string, Row>, records: seq<RestoreRecord>,
                                              model: string, k: nat)
    requires DistinctRecords(records) && k < |records|
    ensures UpToDate(Find(RestoreAll(concepts, records, Newer, model), records[k].id), records[k])
  {
    var init, r := records[..|records| - 1], records[|records| - 1];
    if k < |records| - 1 {
      RestoredIsUpToDate(concepts, init, model, k);
      assert r.id != init[k].id;
    }
  }

  lemma {:induction false} UpToDateWritesNothing(concepts: map<string, Row>, records: seq<RestoreRecord>, model: string)
    requires forall r :: r in records ==> UpToDate(Find(concepts, r.id), r)
    ensures PlannedWrites(concepts, records, Newer, model) == []
    ensures RestoreAll(concepts, records, Newer, model) == concepts
  {
    if records != [] {
      var init := records[..|records| - 1];
      assert forall r :: r in init ==> r in records;
      UpToDateWritesNothing(concepts, init, model);
      assert records[|records| - 1] in records;
    }
  }

  /** Under `newer` a second restore of the same backup writes nothing. */
  lemma RestoreIsIdempotent(concepts: map<string, Row>, records: seq<RestoreRecord>, model: string)
    requires DistinctRecords(records)
    ensures var once := RestoreAll(concepts, records, Newer, model);
      PlannedWrites(once, records, Newer, model) == [] && RestoreAll(once, records, Newer, model) == once
  {
    var once := RestoreAll(concepts, records, Newer, model);
    forall r | r in records ensures UpToDate(Find(once, r.id), r) {
      var k :| 0 <= k < |records| && records[k] == r;
      RestoredIsUpToDate(concepts, records, model, k);
    }
    UpToDateWritesNothing(once, records, model);
  }
}
