/** The SQLite adapter: two tables changed in place inside a transaction that can roll back. */
module SqliteStore {
  import opened Wrappers
  import opened Rows

  class SqliteAdapter {
    var concepts: map<string, Row>
    var vectors: map<string, VectorRow>

    /** The index holds exactly the vectors of the rows. */
    ghost predicate Valid()
      reads this
    {
      Keyed(concepts) && vectors == IndexOf(concepts)
    }

    constructor ()
      ensures Valid() && concepts == map[]
    {
      concepts, vectors := map[], map[];
    }

    method FindConcept(id: string) returns (row: Option<Row>)
      ensures row == Find(concepts, id)
    {
      row := if id in concepts then Some(concepts[id]) else None;
    }

    /** Replace the index entry: the old one is deleted first. */
    method UpsertVector(id: string, namespace: string, embedding: Embedding)
      modifies this`vectors
      ensures vectors == old(vectors)[id := VectorRow(namespace, embedding)]
    {
      vectors := vectors - {id};
      vectors := vectors[id := VectorRow(namespace, embedding)];
    }

    method DeleteVector(id: string)
      modifies this`vectors
      ensures vectors == old(vectors) - {id}
    {
      vectors := vectors - {id};
    }

    /** One write inside the transaction; false means its row condition failed. */
    method ApplyWrite(w: Write) returns (done: bool)
      requires Valid()
      modifies this
      ensures done == Applies(old(concepts), w)
      ensures concepts == if done then Written(old(concepts), w) else old(concepts)
      ensures vectors == if done then IndexWritten(old(vectors), w) else old(vectors)
      ensures Valid()
    {
      if Applies(concepts, w) {
        IndexFollowsWrite(concepts, w);
      }
      match w
      case Insert(row) =>
        if row.id in concepts {
          return false;
        }
        var rowModel := if row.embedding.Some? then row.embeddingModel else None;
        concepts := concepts[row.id := row.(embeddingModel := rowModel)];
        if row.embedding.Some? {
          UpsertVector(row.id, row.namespace, row.embedding.value);
        }
        return true;
      case Update(id, namespace, expectedVersion, fields) =>
        if id !in concepts || concepts[id].version != expectedVersion || concepts[id].namespace != namespace {
          return false;
        }
        concepts := concepts[id := ApplyFields(concepts[id], fields)];
        if fields.embedding == Set(None) {
          DeleteVector(id);
        } else if fields.embedding.Set? {
          UpsertVector(id, namespace, fields.embedding.value.value);
        }
        return true;
      case Delete(id, scope) =>
        if id !in concepts || (scope.Some? && concepts[id].namespace != scope.value) {
          return false;
        }
        concepts := concepts - {id};
        DeleteVector(id);
        return true;
    }

    /** The whole batch or, after a rollback, nothing. */
    method ApplyWrites(ws: seq<Write>) returns (outcome: WriteOutcome)
      requires Valid()
      modifies this
      ensures outcome == Outcome(old(concepts), ws, 0)
      ensures concepts == ApplyBatch(old(concepts), ws)
      ensures vectors == if outcome.Applied? then IndexWrittenAll(old(vectors), ws) else old(vectors)
      ensures Valid()
    {
      var savedConcepts, savedVectors := concepts, vectors;
      var i := 0;
      assert ws[0..] == ws;
      while i < |ws|
        invariant 0 <= i <= |ws| && Valid()
        invariant Outcome(concepts, ws[i..], i) == Outcome(savedConcepts, ws, 0)
        invariant Outcome(savedConcepts, ws, 0).Applied? ==>
          Outcome(concepts, ws[i..], 0).Applied? && WrittenAll(concepts, ws[i..]) == WrittenAll(savedConcepts, ws)
        invariant IndexWrittenAll(vectors, ws[i..]) == IndexWrittenAll(savedVectors, ws)
      {
        OutcomeShift(concepts, ws[i..], 0, i);
        assert ws[i..][0] == ws[i] && ws[i..][1..] == ws[i + 1..];
        if ws[i].Update? && !HasFields(ws[i].fields) {
          concepts, vectors := savedConcepts, savedVectors;
          return Threw;
        }
        var done := ApplyWrite(ws[i]);
        if !done {
          concepts, vectors := savedConcepts, savedVectors;
          return Failed(i);
        }
        OutcomeShift(concepts, ws[i + 1..], i + 1, 0);
        OutcomeShift(concepts, ws[i + 1..], 1, 0);
        i := i + 1;
      }
      return Applied;
    }

    /**
     Rebuild the index from the rows unless it is already in the current layout. Embeddings
     that can never be searched are cleared.
     */
    method MigrateVectorIndex(current: bool, usable: Embedding -> bool)
      requires Keyed(concepts)
      modifies this
      ensures current ==> concepts == old(concepts) && vectors == old(vectors)
      ensures !current ==> Valid() && concepts == Cleared(old(concepts), usable)
    {
      if current {
        return;
      }
      vectors := map[];
      ghost var before := concepts;
      var rest := set id | id in concepts && concepts[id].embedding.Some?;
      MigrationStart(before, rest, usable);
      while rest != {}
        invariant rest <= WithVector(before)
        invariant concepts == Partly(before, rest, usable) && vectors == IndexOf(concepts) - rest
        decreases rest
      {
        var id :| id in rest;
        var row := concepts[id];
        MigrationStep(before, rest, usable, id);
        if usable(row.embedding.value) {
          UpsertVector(id, row.namespace, row.embedding.value);
        } else {
          concepts := concepts[id := row.(embedding := None, embeddingModel := None)];
        }
        rest := rest - {id};
      }
    }
  }

  function WithVector(concepts: map<string, Row>): set<string> {
    set id | id in concepts && concepts[id].embedding.Some?
  }

  /** The table when every row but those in `rest` has been looked at. */
  function Partly(concepts: map<string, Row>, rest: set<string>, usable: Embedding -> bool): map<string, Row> {
    map id | id in concepts :: if id in rest then concepts[id] else ClearedRow(concepts[id], usable)
  }

  lemma MigrationStart(before: map<string, Row>, rest: set<string>, usable: Embedding -> bool)
    requires rest == WithVector(before)
    ensures Partly(before, rest, usable) == before && IndexOf(before) - rest == map[]
    ensures Partly(before, {}, usable) == Cleared(before, usable)
    ensures IndexOf(Cleared(before, usable)) - {} == IndexOf(Cleared(before, usable))
  {
  }

  lemma MigrationStep(before: map<string, Row>, rest: set<string>, usable: Embedding -> bool, id: string)
    requires rest <= WithVector(before) && id in rest
    ensures var now, next := Partly(before, rest, usable), Partly(before, rest - {id}, usable);
      && now[id] == before[id]
      && next == now[id := ClearedRow(before[id], usable)]
      && IndexOf(next) - (rest - {id})
         == if usable(before[id].embedding.value)
            then (IndexOf(now) - rest)[id := VectorRow(before[id].namespace, before[id].embedding.value)]
            else IndexOf(now) - rest
  {
  }

  function ClearedRow(row: Row, usable: Embedding -> bool): Row {
    if row.embedding.Some? && !usable(row.embedding.value) then row.(embedding := None, embeddingModel := None) else row
  }

  /** The rows with their unusable embeddings cleared. */
  function Cleared(concepts: map<string, Row>, usable: Embedding -> bool): map<string, Row> {
    map id | id in concepts :: ClearedRow(concepts[id], usable)
  }
}
