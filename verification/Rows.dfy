/** Concept rows, conditional writes and what a batch of them does to the two tables. */
module Rows {
  import opened Wrappers

  datatype Representation = Vector | Markdown | Thoughtform

  datatype Origin = User | Derived | Llm | Import

  datatype Provenance = Provenance(
    origin: Origin,
    derivedFrom: Option<Representation>,
    model: Option<string>,
    createdBy: Option<string>,
    sources: Option<seq<string>>)

  type ProvenanceMap = map<Representation, Provenance>

  type Embedding = seq<real>

  datatype AssertionStatus = Asserted | Verified | Contested | Retracted

  datatype Row = Row(
    id: string,
    namespace: string,
    version: int,
    createdAt: int,
    updatedAt: int,
    tags: seq<string>,
    markdown: Option<string>,
    thoughtform: Option<string>,
    embedding: Option<Embedding>,
    embeddingModel: Option<string>,
    provenance: ProvenanceMap,
    assertionStatus: Option<AssertionStatus>,
    ledgerRef: Option<string>)

  /** `undefined` leaves a column alone. */
  datatype Field<+T> = Keep | Set(value: T) {
    function Or(current: T): T {
      if Set? then value else current
    }
  }

  /** The updatable columns; id, namespace and createdAt are not among them. */
  datatype UpdateFields = UpdateFields(
    version: Field<int>,
    updatedAt: Field<int>,
    tags: Field<seq<string>>,
    markdown: Field<Option<string>>,
    thoughtform: Field<Option<string>>,
    embedding: Field<Option<Embedding>>,
    embeddingModel: Field<Option<string>>,
    provenance: Field<ProvenanceMap>,
    assertionStatus: Field<Option<AssertionStatus>>,
    ledgerRef: Field<Option<string>>)

  datatype Write =
    | Insert(row: Row)
    | Update(id: string, namespace: string, expectedVersion: int, fields: UpdateFields)
    | Delete(id: string, scope: Option<string>)

  function WriteId(w: Write): string {
    match w
    case Insert(row) => row.id
    case Update(id, _, _, _) => id
    case Delete(id, _) => id
  }

  datatype VectorRow = VectorRow(namespace: string, embedding: Embedding)

  function Find(concepts: map<string, Row>, id: string): Option<Row> {
    if id in concepts then Some(concepts[id]) else None
  }

  // -------------------------------------------------------------- authorship

  function ProvenanceOf(m: ProvenanceMap, rep: Representation): Option<Provenance> {
    if rep in m then Some(m[rep]) else None
  }

  /** Made by Polytician (derived or LLM); no record counts as authored. */
  predicate IsMachineMade(p: Option<Provenance>) {
    p.Some? && (p.value.origin.Derived? || p.value.origin.Llm?)
  }

  predicate HasRepresentation(row: Row, rep: Representation) {
    match rep
    case Markdown => row.markdown.Some?
    case Thoughtform => row.thoughtform.Some?
    case Vector => row.embedding.Some?
  }

  /** `rep` holds content that a caller wrote or imported. */
  predicate Authored(row: Row, rep: Representation) {
    HasRepresentation(row, rep) && !IsMachineMade(ProvenanceOf(row.provenance, rep))
  }

  // ------------------------------------------------------------ the writes

  /** The row an insert stores: without a vector there is no model either. */
  function Stored(row: Row): Row {
    if row.embedding.Some? then row else row.(embeddingModel := None)
  }

  predicate HasFields(f: UpdateFields) {
    f.version.Set? || f.updatedAt.Set? || f.tags.Set? || f.markdown.Set? || f.thoughtform.Set?
    || f.embedding.Set? || f.embeddingModel.Set? || f.provenance.Set? || f.assertionStatus.Set?
    || f.ledgerRef.Set?
  }

  function ApplyFields(row: Row, f: UpdateFields): Row {
    row.(version := f.version.Or(row.version),
         updatedAt := f.updatedAt.Or(row.updatedAt),
         tags := f.tags.Or(row.tags),
         markdown := f.markdown.Or(row.markdown),
         thoughtform := f.thoughtform.Or(row.thoughtform),
         embedding := f.embedding.Or(row.embedding),
         embeddingModel := f.embeddingModel.Or(row.embeddingModel),
         provenance := f.provenance.Or(row.provenance),
         assertionStatus := f.assertionStatus.Or(row.assertionStatus),
         ledgerRef := f.ledgerRef.Or(row.ledgerRef))
  }

  /** Whether the write's row condition holds. */
  predicate Applies(concepts: map<string, Row>, w: Write) {
    match w
    case Insert(row) => row.id !in concepts
    case Update(id, ns, version, _) =>
      id in concepts && concepts[id].version == version && concepts[id].namespace == ns
    case Delete(id, scope) =>
      id in concepts && (scope.None? || concepts[id].namespace == scope.value)
  }

  /** What a write makes of the concepts table. */
  function Written(concepts: map<string, Row>, w: Write): map<string, Row>
    requires Applies(concepts, w)
  {
    match w
    case Insert(row) => concepts[row.id := Stored(row)]
    case Update(id, _, _, fields) => concepts[id := ApplyFields(concepts[id], fields)]
    case Delete(id, _) => concepts - {id}
  }

  /** The index that belongs to a concepts table: one entry per row with a vector. */
  function IndexOf(concepts: map<string, Row>): map<string, VectorRow> {
    map id | id in concepts && concepts[id].embedding.Some? ::
      VectorRow(concepts[id].namespace, concepts[id].embedding.value)
  }

  /** What a write does to the index: put an entry, delete one, or nothing. */
  function IndexWritten(vectors: map<string, VectorRow>, w: Write): map<string, VectorRow> {
    match w
    case Insert(row) =>
      if row.embedding.Some? then vectors[row.id := VectorRow(row.namespace, row.embedding.value)] else vectors
    case Update(id, namespace, _, fields) =>
      if fields.embedding.Keep? then vectors
      else if fields.embedding.value.None? then vectors - {id}
      else vectors[id := VectorRow(namespace, fields.embedding.value.value)]
    case Delete(id, _) => vectors - {id}
  }

  /** The index after all writes of a batch. */
  function IndexWrittenAll(vectors: map<string, VectorRow>, ws: seq<Write>): map<string, VectorRow>
    decreases |ws|
  {
    if ws == [] then vectors else IndexWrittenAll(IndexWritten(vectors, ws[0]), ws[1..])
  }

  /** An inserted row is stored as it is, but without a vector it names no model. */
  lemma InsertedColumns(concepts: map<string, Row>, row: Row)
    requires row.id !in concepts
    ensures
      var stored := Written(concepts, Insert(row))[row.id];
      && stored.embeddingModel == (if row.embedding == None then None else row.embeddingModel)
      && stored.(embeddingModel := row.embeddingModel) == row
  {
  }

  /** A write leaves behind the index of the rows it leaves behind. */
  lemma IndexFollowsWrite(concepts: map<string, Row>, w: Write)
    requires Applies(concepts, w)
    ensures IndexWritten(IndexOf(concepts), w) == IndexOf(Written(concepts, w))
  {
  }

  datatype WriteOutcome = Applied | Failed(index: nat) | Threw

  /** How a batch ends: the first write that fails or throws, if any, decides. */
  function Outcome(concepts: map<string, Row>, ws: seq<Write>, i: nat): (o: WriteOutcome)
    ensures o.Failed? ==> i <= o.index < i + |ws|
    decreases |ws|
  {
    if ws == [] then Applied
    else if ws[0].Update? && !HasFields(ws[0].fields) then Threw
    else if !Applies(concepts, ws[0]) then Failed(i)
    else Outcome(Written(concepts, ws[0]), ws[1..], i + 1)
  }

  /** The concepts after all writes of a batch that is applied. */
  function WrittenAll(concepts: map<string, Row>, ws: seq<Write>): map<string, Row>
    requires Outcome(concepts, ws, 0).Applied?
    decreases |ws|
  {
    OutcomeShift(concepts, ws, 0, 1);
    if ws == [] then concepts
    else
      OutcomeShift(Written(concepts, ws[0]), ws[1..], 0, 1);
      WrittenAll(Written(concepts, ws[0]), ws[1..])
  }

  /** All or nothing. */
  function ApplyBatch(concepts: map<string, Row>, ws: seq<Write>): map<string, Row> {
    if Outcome(concepts, ws, 0).Applied? then WrittenAll(concepts, ws) else concepts
  }

  lemma {:induction false} OutcomeShift(concepts: map<string, Row>, ws: seq<Write>, i: nat, j: nat)
    ensures Outcome(concepts, ws, i).Applied? <==> Outcome(concepts, ws, j).Applied?
    ensures Outcome(concepts, ws, i).Failed? <==> Outcome(concepts, ws, j).Failed?
    ensures Outcome(concepts, ws, i).Failed?
      ==> Outcome(concepts, ws, i).index - i == Outcome(concepts, ws, j).index - j
    decreases |ws|
  {
    if ws != [] && Applies(concepts, ws[0]) {
      OutcomeShift(Written(concepts, ws[0]), ws[1..], i + 1, j + 1);
    }
  }

  /** And so does a batch: written entry by entry, the index still agrees with the rows. */
  lemma {:induction false} IndexFollowsBatch(concepts: map<string, Row>, ws: seq<Write>)
    requires Outcome(concepts, ws, 0).Applied?
    ensures IndexWrittenAll(IndexOf(concepts), ws) == IndexOf(WrittenAll(concepts, ws))
    decreases |ws|
  {
    if ws != [] {
      var next := Written(concepts, ws[0]);
      OutcomeShift(next, ws[1..], 0, 1);
      IndexFollowsWrite(concepts, ws[0]);
      IndexFollowsBatch(next, ws[1..]);
    }
  }

  /** A failed batch names the first write that could not be applied after those before it. */
  lemma {:induction false} FailureIsFirst(concepts: map<string, Row>, ws: seq<Write>, n: nat)
    requires n < |ws| && Outcome(concepts, ws, 0) == Failed(n)
    ensures Outcome(concepts, ws[..n], 0).Applied?
    ensures !Applies(WrittenAll(concepts, ws[..n]), ws[n])
    decreases |ws|
  {
    if n > 0 {
      var next := Written(concepts, ws[0]);
      OutcomeShift(next, ws[1..], 1, 0);
      FailureIsFirst(next, ws[1..], n - 1);
      assert ws[..n][1..] == ws[1..][..n - 1];
      OutcomeShift(next, ws[1..][..n - 1], 0, 1);
    }
  }

  /** One more write behind an applied batch. */
  lemma {:induction false} BatchSnoc(concepts: map<string, Row>, ws: seq<Write>, w: Write)
    requires Outcome(concepts, ws, 0).Applied?
    requires Applies(WrittenAll(concepts, ws), w) && (w.Update? ==> HasFields(w.fields))
    ensures Outcome(concepts, ws + [w], 0).Applied?
    ensures WrittenAll(concepts, ws + [w]) == Written(WrittenAll(concepts, ws), w)
    decreases |ws|
  {
    if ws == [] {
      assert [w][1..] == [];
    } else {
      var next := Written(concepts, ws[0]);
      OutcomeShift(next, ws[1..], 0, 1);
      BatchSnoc(next, ws[1..], w);
      assert (ws + [w])[1..] == ws[1..] + [w];
      OutcomeShift(next, ws[1..] + [w], 0, 1);
    }
  }

  // ------------------------------------------ batches on different rows

  ghost predicate DistinctTargets(ws: seq<Write>) {
    forall i, j :: 0 <= i < j < |ws| ==> WriteId(ws[i]) != WriteId(ws[j])
  }

  /** What one write leaves under its id. */
  function Left(concepts: map<string, Row>, w: Write): Option<Row>
    requires Applies(concepts, w)
  {
    Find(Written(concepts, w), WriteId(w))
  }

  lemma OtherRowsUntouched(concepts: map<string, Row>, w: Write, v: Write)
    requires Applies(concepts, w) && WriteId(v) != WriteId(w)
    ensures Applies(Written(concepts, w), v) <==> Applies(concepts, v)
    ensures Applies(concepts, v) ==> Left(Written(concepts, w), v) == Left(concepts, v)
  {
  }

  ghost predicate Targets(ws: seq<Write>, id: string) {
    exists w :: w in ws && WriteId(w) == id
  }

  ghost predicate AllHaveFields(ws: seq<Write>) {
    forall w :: w in ws && w.Update? ==> HasFields(w.fields)
  }

  /**
   A batch on different rows is applied exactly when every write applies to the state before
   the batch, and then each row is what its own write makes of that state.
   */
  lemma DistinctBatch(concepts: map<string, Row>, ws: seq<Write>)
    requires DistinctTargets(ws) && AllHaveFields(ws)
    ensures Outcome(concepts, ws, 0).Applied? <==> forall w :: w in ws ==> Applies(concepts, w)
    ensures Outcome(concepts, ws, 0).Applied? ==>
      forall w :: w in ws ==> Find(WrittenAll(concepts, ws), WriteId(w)) == Left(concepts, w)
    ensures Outcome(concepts, ws, 0).Applied? ==>
      forall id :: !Targets(ws, id) ==> Find(WrittenAll(concepts, ws), id) == Find(concepts, id)
  {
    DistinctApplies(concepts, ws);
    if Outcome(concepts, ws, 0).Applied? {
      forall w | w in ws ensures Find(WrittenAll(concepts, ws), WriteId(w)) == Left(concepts, w) {
        TargetedRow(concepts, ws, w);
      }
      forall id | !Targets(ws, id) ensures Find(WrittenAll(concepts, ws), id) == Find(concepts, id) {
        UntargetedRow(concepts, ws, id);
      }
    }
  }

  /** The batch without its first write. */
  lemma RestOfBatch(concepts: map<string, Row>, ws: seq<Write>)
    requires ws != [] && Outcome(concepts, ws, 0).Applied?
    ensures Applies(concepts, ws[0]) && Outcome(Written(concepts, ws[0]), ws[1..], 0).Applied?
    ensures WrittenAll(concepts, ws) == WrittenAll(Written(concepts, ws[0]), ws[1..])
  {
    OutcomeShift(Written(concepts, ws[0]), ws[1..], 0, 1);
  }

  lemma {:induction false} UntargetedRow(concepts: map<string, Row>, ws: seq<Write>, id: string)
    requires Outcome(concepts, ws, 0).Applied? && !Targets(ws, id)
    ensures Find(WrittenAll(concepts, ws), id) == Find(concepts, id)
    decreases |ws|
  {
    if ws != [] {
      RestOfBatch(concepts, ws);
      forall w | w in ws[1..] ensures WriteId(w) != id {
        assert w in ws;
      }
      UntargetedRow(Written(concepts, ws[0]), ws[1..], id);
      assert ws[0] in ws;
    }
  }

  lemma {:induction false} TargetedRow(concepts: map<string, Row>, ws: seq<Write>, w: Write)
    requires DistinctTargets(ws) && w in ws && Outcome(concepts, ws, 0).Applied?
    requires Applies(concepts, w)
    ensures Find(WrittenAll(concepts, ws), WriteId(w)) == Left(concepts, w)
    decreases |ws|
  {
    RestOfBatch(concepts, ws);
    RestOfDistinctBatch(concepts, ws);
    var next := Written(concepts, ws[0]);
    if w in ws[1..] {
      TargetedRow(next, ws[1..], w);
    } else {
      UntargetedRow(next, ws[1..], WriteId(w));
    }
  }

  lemma {:induction false} DistinctApplies(concepts: map<string, Row>, ws: seq<Write>)
    requires DistinctTargets(ws) && AllHaveFields(ws)
    ensures Outcome(concepts, ws, 0).Applied? <==> forall w :: w in ws ==> Applies(concepts, w)
    decreases |ws|
  {
    if ws != [] {
      assert ws[0] in ws;
      if Applies(concepts, ws[0]) {
        var next := Written(concepts, ws[0]);
        OutcomeShift(next, ws[1..], 0, 1);
        RestOfDistinctBatch(concepts, ws);
        DistinctApplies(next, ws[1..]);
      }
    }
  }

  lemma RestOfDistinctBatch(concepts: map<string, Row>, ws: seq<Write>)
    requires ws != [] && DistinctTargets(ws) && Applies(concepts, ws[0])
    ensures forall w :: w in ws ==> w == ws[0] || w in ws[1..]
    ensures forall w :: w in ws[1..] ==>
      && WriteId(w) != WriteId(ws[0])
      && (Applies(Written(concepts, ws[0]), w) <==> Applies(concepts, w))
      && (Applies(concepts, w) ==> Left(Written(concepts, ws[0]), w) == Left(concepts, w))
  {
    forall w | w in ws[1..]
      ensures WriteId(w) != WriteId(ws[0])
      ensures Applies(Written(concepts, ws[0]), w) <==> Applies(concepts, w)
      ensures Applies(concepts, w) ==> Left(Written(concepts, ws[0]), w) == Left(concepts, w)
    {
      var i :| 0 <= i < |ws[1..]| && ws[1..][i] == w;
      assert ws[i + 1] == w;
      OtherRowsUntouched(concepts, ws[0], w);
    }
  }

  // --------------------------------------------------- what rows keep

  /** Every row is stored under its id. */
  ghost predicate Keyed(concepts: map<string, Row>) {
    forall id :: id in concepts ==> concepts[id].id == id
  }

  /** Between insert and delete a row keeps its namespace and its creation time. */
  lemma WriteKeepsNamespace(concepts: map<string, Row>, w: Write, id: string)
    requires Applies(concepts, w) && id in concepts && id in Written(concepts, w)
    ensures Written(concepts, w)[id].namespace == concepts[id].namespace
    ensures Written(concepts, w)[id].createdAt == concepts[id].createdAt
  {
  }

  lemma WriteKeepsKeys(concepts: map<string, Row>, w: Write)
    requires Keyed(concepts) && Applies(concepts, w)
    ensures Keyed(Written(concepts, w))
  {
  }

  lemma {:induction false} BatchKeepsKeys(concepts: map<string, Row>, ws: seq<Write>)
    requires Keyed(concepts) && Outcome(concepts, ws, 0).Applied?
    ensures Keyed(WrittenAll(concepts, ws))
    decreases |ws|
  {
    if ws != [] {
      WriteKeepsKeys(concepts, ws[0]);
      OutcomeShift(Written(concepts, ws[0]), ws[1..], 0, 1);
      BatchKeepsKeys(Written(concepts, ws[0]), ws[1..]);
    }
  }
}
