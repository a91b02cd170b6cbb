/**
 Restoring several backups under `newer`: what a concept ends as, and when the order of the
 backups does not matter.
 */
module Convergence {
  import opened Wrappers
  import opened Rows
  import opened Restoring

  /** What a store shows of a concept apart from version and creation time. */
  datatype View = View(
    namespace: string,
    updatedAt: int,
    tags: seq<string>,
    markdown: Option<string>,
    thoughtform: Option<string>,
    embedding: Option<Embedding>,
    embeddingModel: Option<string>,
    provenance: ProvenanceMap,
    assertionStatus: Option<AssertionStatus>,
    ledgerRef: Option<string>)

  function ViewOf(row: Row): View {
    View(row.namespace, row.updatedAt, row.tags, row.markdown, row.thoughtform, row.embedding,
         row.embeddingModel, row.provenance, row.assertionStatus, row.ledgerRef)
  }

  function Shown(concepts: map<string, Row>, id: string): Option<View> {
    if id in concepts then Some(ViewOf(concepts[id])) else None
  }

  // ------------------------------------------------ what a concept ends as

  /** The namespace of the first record of `id`. */
  function FirstNamespace(records: seq<RestoreRecord>, id: string): Option<string> {
    if records == [] then None
    else
      var before := FirstNamespace(records[..|records| - 1], id);
      var r := records[|records| - 1];
      if before.None? && r.id == id then Some(r.namespace) else before
  }

  /** The namespace a concept stays in: that of its stored row, else that of the first record. */
  function Home(concepts: map<string, Row>, records: seq<RestoreRecord>, id: string): Option<string> {
    if id in concepts then Some(concepts[id].namespace) else FirstNamespace(records, id)
  }

  /** A record of the concept in its namespace; records of another one are always skipped. */
  predicate Competes(r: RestoreRecord, id: string, home: Option<string>) {
    r.id == id && home == Some(r.namespace)
  }

  /** Newer than the stored row, if there is one, and as new as every record it competes with. */
  ghost predicate Best(concepts: map<string, Row>, records: seq<RestoreRecord>, id: string, home: Option<string>,
                       r: RestoreRecord) {
    && r in records && Competes(r, id, home)
    && (id in concepts ==> r.updatedAt > concepts[id].updatedAt)
    && forall s :: s in records && Competes(s, id, home) ==> s.updatedAt <= r.updatedAt
  }

  /** Nothing newer than what is stored. */
  ghost predicate NoneNewer(concepts: map<string, Row>, records: seq<RestoreRecord>, id: string,
                            home: Option<string>) {
    forall s :: s in records && Competes(s, id, home) ==> id in concepts && s.updatedAt <= concepts[id].updatedAt
  }

  /** The row is the stored one, or shows a best record. */
  ghost predicate EndsAsLatest(concepts: map<string, Row>, records: seq<RestoreRecord>, model: string, id: string,
                               final: map<string, Row>) {
    var home := Home(concepts, records, id);
    || (NoneNewer(concepts, records, id, home) && Find(final, id) == Find(concepts, id))
    || (exists r :: Best(concepts, records, id, home, r) && Shown(final, id) == Some(ViewOf(RestoredRow(r, model))))
  }

  lemma {:induction false} FirstNamespaceIsOne(records: seq<RestoreRecord>, id: string)
    ensures FirstNamespace(records, id).None? ==> forall r :: r in records ==> r.id != id
    ensures FirstNamespace(records, id).Some? ==>
      exists r :: r in records && Competes(r, id, FirstNamespace(records, id))
  {
    if records != [] {
      var init, last := records[..|records| - 1], records[|records| - 1];
      FirstNamespaceIsOne(init, id);
      assert records == init + [last];
      assert last in records;
      if FirstNamespace(init, id).Some? {
        var r :| r in init && Competes(r, id, FirstNamespace(init, id));
        assert r in records;
      }
    }
  }

  /** For every store, every list of records and every id, mixed namespaces and ties included. */
  lemma {:induction false} RestoreEndsAsLatest(concepts: map<string, Row>, records: seq<RestoreRecord>, model: string,
                                               id: string)
    ensures EndsAsLatest(concepts, records, model, id, RestoreAll(concepts, records, Newer, model))
  {
    if records == [] {
      assert NoneNewer(concepts, records, id, Home(concepts, records, id));
    } else {
      var init, r := records[..|records| - 1], records[|records| - 1];
      assert records == init + [r];
      RestoreEndsAsLatest(concepts, init, model, id);
      OneMoreRecord(concepts, init, r, model, id, RestoreAll(concepts, init, Newer, model));
    }
  }

  lemma HomeOfOneMore(concepts: map<string, Row>, init: seq<RestoreRecord>, r: RestoreRecord, id: string)
    ensures
      var home := Home(concepts, init, id);
      Home(concepts, init + [r], id) == if home.None? && r.id == id then Some(r.namespace) else home
  {
    assert (init + [r])[..|init|] == init;
  }

  lemma OneMoreRecord(concepts: map<string, Row>, init: seq<RestoreRecord>, r: RestoreRecord, model: string,
                      id: string, before: map<string, Row>)
    requires EndsAsLatest(concepts, init, model, id, before)
    ensures EndsAsLatest(concepts, init + [r], model, id, RestoreEach(before, r, Newer, model))
  {
    var old_home, home := Home(concepts, init, id), Home(concepts, init + [r], id);
    HomeOfOneMore(concepts, init, r, id);
    FirstNamespaceIsOne(init, id);
    if old_home.None? && r.id == id {
      FirstOfItsId(concepts, init, r, model, id, before);
    } else if NoneNewer(concepts, init, id, home) && Find(before, id) == Find(concepts, id) {
      AfterStored(concepts, init, r, model, id, home, before);
    } else {
      var b :| Best(concepts, init, id, home, b) && Shown(before, id) == Some(ViewOf(RestoredRow(b, model)));
      AfterBest(concepts, init, r, model, id, home, b, before);
    }
  }

  /** The first record of a concept that is not stored is inserted. */
  lemma FirstOfItsId(concepts: map<string, Row>, init: seq<RestoreRecord>, r: RestoreRecord, model: string,
                     id: string, before: map<string, Row>)
    requires EndsAsLatest(concepts, init, model, id, before) && Home(concepts, init, id).None? && r.id == id
    ensures EndsAsLatest(concepts, init + [r], model, id, RestoreEach(before, r, Newer, model))
  {
    HomeOfOneMore(concepts, init, r, id);
    FirstNamespaceIsOne(init, id);
    assert Best(concepts, init + [r], id, Some(r.namespace), r);
  }

  /** What a record does to a row of this namespace and update time. */
  lemma RecordOverRow(before: map<string, Row>, r: RestoreRecord, model: string)
    requires r.id in before
    ensures
      var row, after := before[r.id], RestoreEach(before, r, Newer, model);
      if row.namespace == r.namespace && r.updatedAt > row.updatedAt then
        Shown(after, r.id) == Some(ViewOf(RestoredRow(r, model)))
      else after == before
  {
  }

  lemma AfterStored(concepts: map<string, Row>, init: seq<RestoreRecord>, r: RestoreRecord, model: string,
                    id: string, home: Option<string>, before: map<string, Row>)
    requires home == Home(concepts, init, id) == Home(concepts, init + [r], id)
    requires home.Some? || r.id != id
    requires NoneNewer(concepts, init, id, home) && Find(before, id) == Find(concepts, id)
    ensures EndsAsLatest(concepts, init + [r], model, id, RestoreEach(before, r, Newer, model))
  {
    FirstNamespaceIsOne(init, id);
    if r.id == id {
      assert id in concepts;
      RecordOverRow(before, r, model);
      if Competes(r, id, home) && r.updatedAt > concepts[id].updatedAt {
        assert Best(concepts, init + [r], id, home, r);
      }
    }
  }

  lemma AfterBest(concepts: map<string, Row>, init: seq<RestoreRecord>, r: RestoreRecord, model: string,
                  id: string, home: Option<string>, b: RestoreRecord, before: map<string, Row>)
    requires home == Home(concepts, init, id) == Home(concepts, init + [r], id)
    requires Best(concepts, init, id, home, b) && Shown(before, id) == Some(ViewOf(RestoredRow(b, model)))
    ensures EndsAsLatest(concepts, init + [r], model, id, RestoreEach(before, r, Newer, model))
  {
    if r.id == id {
      RecordOverRow(before, r, model);
    }
    if Competes(r, id, home) && r.updatedAt > b.updatedAt {
      assert Best(concepts, init + [r], id, home, r);
    } else {
      assert Best(concepts, init + [r], id, home, b);
    }
  }

  // --------------------------------------------------------- whole backups

  /** Several backups, one after the other. */
  function RestoreBackups(concepts: map<string, Row>, backups: seq<seq<RestoreRecord>>, model: string)
    : map<string, Row>
  {
    if backups == [] then concepts
    else RestoreAll(RestoreBackups(concepts, backups[..|backups| - 1], model), backups[|backups| - 1], Newer, model)
  }

  function Flat(backups: seq<seq<RestoreRecord>>): seq<RestoreRecord> {
    if backups == [] then [] else Flat(backups[..|backups| - 1]) + backups[|backups| - 1]
  }

  lemma {:induction false} RestoreAppend(concepts: map<string, Row>, a: seq<RestoreRecord>, b: seq<RestoreRecord>,
                                         policy: ConflictPolicy, model: string)
    ensures RestoreAll(concepts, a + b, policy, model)
         == RestoreAll(RestoreAll(concepts, a, policy, model), b, policy, model)
  {
    if b == [] {
      assert a + b == a;
    } else {
      RestoreAppend(concepts, a, b[..|b| - 1], policy, model);
      assert (a + b)[..|a + b| - 1] == a + b[..|b| - 1];
    }
  }

  lemma {:induction false} BackupsAreFlat(concepts: map<string, Row>, backups: seq<seq<RestoreRecord>>, model: string)
    ensures RestoreBackups(concepts, backups, model) == RestoreAll(concepts, Flat(backups), Newer, model)
  {
    if backups != [] {
      BackupsAreFlat(concepts, backups[..|backups| - 1], model);
      RestoreAppend(concepts, Flat(backups[..|backups| - 1]), backups[|backups| - 1], Newer, model);
    }
  }

  lemma {:induction false} InFlat(backups: seq<seq<RestoreRecord>>, r: RestoreRecord)
    ensures r in Flat(backups) <==> exists b :: b in backups && r in b
  {
    if backups != [] {
      var init, last := backups[..|backups| - 1], backups[|backups| - 1];
      assert backups == init + [last];
      InFlat(init, r);
    }
  }

  lemma {:induction false} FlatAppend(a: seq<seq<RestoreRecord>>, b: seq<seq<RestoreRecord>>)
    ensures Flat(a + b) == Flat(a) + Flat(b)
  {
    if b == [] {
      assert a + b == a;
    } else {
      var init, last := b[..|b| - 1], b[|b| - 1];
      FlatAppend(a, init);
      assert (a + b)[..|a + b| - 1] == a + init;
      assert (Flat(a) + Flat(init)) + last == Flat(a) + (Flat(init) + last);
    }
  }

  /** One backup, then the others. */
  lemma BackupFirst(concepts: map<string, Row>, first: seq<RestoreRecord>, rest: seq<seq<RestoreRecord>>, model: string)
    ensures RestoreBackups(concepts, [first] + rest, model)
      == RestoreAll(RestoreAll(concepts, first, Newer, model), Flat(rest), Newer, model)
  {
    FlatAppend([first], rest);
    assert [first][..0] == [];
    assert Flat([first]) == Flat([]) + first == first;
    BackupsAreFlat(concepts, [first] + rest, model);
    RestoreAppend(concepts, first, Flat(rest), Newer, model);
  }

  /** A backup holds at most one record of a concept, and only that one matters to it. */
  lemma OnlyOwnRecord(concepts: map<string, Row>, records: seq<RestoreRecord>, k: nat, model: string)
    requires DistinctRecords(records) && k < |records|
    ensures Find(RestoreAll(concepts, records, Newer, model), records[k].id)
      == Find(RestoreEach(concepts, records[k], Newer, model), records[k].id)
  {
    var r, before, behind := records[k], records[..k], records[k + 1..];
    assert records == (before + [r]) + behind;
    RestoreAppend(concepts, before + [r], behind, Newer, model);
    RestoreAllElsewhere(RestoreAll(concepts, before + [r], Newer, model), behind, Newer, model, r.id);
    assert (before + [r])[..k] == before;
    RestoreAllElsewhere(concepts, before, Newer, model, r.id);
  }

  // ---------------------------------------------------- the order of backups

  ghost predicate OneNamespace(records: seq<RestoreRecord>, id: string) {
    forall r, s :: r in records && s in records && r.id == id && s.id == id ==> r.namespace == s.namespace
  }

  /**
   The namespace of the concept is settled, and the best records of it, if there are several,
   show the same.
   */
  ghost predicate OrderIsImmaterial(concepts: map<string, Row>, records: seq<RestoreRecord>, model: string,
                                    id: string) {
    var home := Home(concepts, records, id);
    && (id in concepts || OneNamespace(records, id))
    && forall r, s :: Best(concepts, records, id, home, r) && Best(concepts, records, id, home, s) ==>
         ViewOf(RestoredRow(r, model)) == ViewOf(RestoredRow(s, model))
  }

  ghost predicate EndsAlike(concepts: map<string, Row>, a: seq<seq<RestoreRecord>>, b: seq<seq<RestoreRecord>>,
                            model: string, id: string) {
    Shown(RestoreBackups(concepts, a, model), id) == Shown(RestoreBackups(concepts, b, model), id)
  }

  lemma SameHome(concepts: map<string, Row>, a: seq<RestoreRecord>, b: seq<RestoreRecord>, id: string)
    requires (forall r :: r in a <==> r in b) && (id in concepts || OneNamespace(a, id))
    ensures Home(concepts, a, id) == Home(concepts, b, id)
  {
    FirstNamespaceIsOne(a, id);
    FirstNamespaceIsOne(b, id);
  }

  lemma SameRecordsEndAlike(concepts: map<string, Row>, a: seq<RestoreRecord>, b: seq<RestoreRecord>, model: string,
                            id: string)
    requires (forall r :: r in a <==> r in b) && OrderIsImmaterial(concepts, a, model, id)
    ensures Shown(RestoreAll(concepts, a, Newer, model), id) == Shown(RestoreAll(concepts, b, Newer, model), id)
  {
    var home := Home(concepts, a, id);
    SameHome(concepts, a, b, id);
    RestoreEndsAsLatest(concepts, a, model, id);
    RestoreEndsAsLatest(concepts, b, model, id);
    assert forall r :: Best(concepts, a, id, home, r) <==> Best(concepts, b, id, home, r);
    assert NoneNewer(concepts, a, id, home) <==> NoneNewer(concepts, b, id, home);
  }

  lemma SameBackupsSameRecords(a: seq<seq<RestoreRecord>>, b: seq<seq<RestoreRecord>>)
    requires multiset(a) == multiset(b)
    ensures forall r :: r in Flat(a) <==> r in Flat(b)
  {
    forall r ensures r in Flat(a) <==> r in Flat(b) {
      InFlat(a, r);
      InFlat(b, r);
      assert forall x :: x in a <==> x in multiset(a);
      assert forall x :: x in b <==> x in multiset(b);
    }
  }

  /** The backups with the one that holds `r` put first. */
  lemma PutFirst(backups: seq<seq<RestoreRecord>>, r: RestoreRecord)
    returns (first: seq<RestoreRecord>, k: nat, rest: seq<seq<RestoreRecord>>)
    requires r in Flat(backups)
    ensures first in backups && k < |first| && first[k] == r
    ensures multiset([first] + rest) == multiset(backups)
    ensures forall t :: t in Flat(rest) ==> t in Flat(backups)
  {
    InFlat(backups, r);
    var i :| 0 <= i < |backups| && r in backups[i];
    first := backups[i];
    k :| 0 <= k < |first| && first[k] == r;
    rest := backups[..i] + backups[i + 1..];
    MovedToFront(backups, i);
    SameBackupsSameRecords([first] + rest, backups);
    FlatAppend([first], rest);
  }

  lemma MovedToFront<T>(xs: seq<T>, i: nat)
    requires i < |xs|
    ensures multiset([xs[i]] + (xs[..i] + xs[i + 1..])) == multiset(xs)
  {
    assert xs == xs[..i] + [xs[i]] + xs[i + 1..];
  }

  /** A record of a concept that is not stored fixes its namespace when its backup comes first. */
  lemma FirstFixesNamespace(concepts: map<string, Row>, backups: seq<seq<RestoreRecord>>, r: RestoreRecord,
                            model: string)
    returns (order: seq<seq<RestoreRecord>>)
    requires r in Flat(backups) && r.id !in concepts && forall b :: b in backups ==> DistinctRecords(b)
    ensures multiset(order) == multiset(backups)
    ensures r.id in RestoreBackups(concepts, order, model)
    ensures RestoreBackups(concepts, order, model)[r.id].namespace == r.namespace
  {
    var first, k, rest := PutFirst(backups, r);
    order := [first] + rest;
    BackupFirst(concepts, first, rest, model);
    OnlyOwnRecord(concepts, first, k, model);
    RestoreEndsAsLatest(RestoreAll(concepts, first, Newer, model), Flat(rest), model, r.id);
  }

  /** A best record is what the concept ends as when its backup comes first. */
  lemma BestFirstStays(concepts: map<string, Row>, backups: seq<seq<RestoreRecord>>, r: RestoreRecord, model: string)
    returns (order: seq<seq<RestoreRecord>>)
    requires Best(concepts, Flat(backups), r.id, Home(concepts, Flat(backups), r.id), r)
    requires r.id in concepts || OneNamespace(Flat(backups), r.id)
    requires forall b :: b in backups ==> DistinctRecords(b)
    ensures multiset(order) == multiset(backups)
    ensures Shown(RestoreBackups(concepts, order, model), r.id) == Some(ViewOf(RestoredRow(r, model)))
  {
    var first, k, rest := PutFirst(backups, r);
    order := [first] + rest;
    BackupFirst(concepts, first, rest, model);
    OnlyOwnRecord(concepts, first, k, model);
    NothingBeats(concepts, Flat(backups), RestoreAll(concepts, first, Newer, model), Flat(rest), r, model);
  }

  lemma NothingBeats(concepts: map<string, Row>, all: seq<RestoreRecord>, stage: map<string, Row>,
                     rest: seq<RestoreRecord>, r: RestoreRecord, model: string)
    requires Best(concepts, all, r.id, Home(concepts, all, r.id), r)
    requires Find(stage, r.id) == Find(RestoreEach(concepts, r, Newer, model), r.id)
    requires forall t :: t in rest ==> t in all
    ensures Shown(RestoreAll(stage, rest, Newer, model), r.id) == Some(ViewOf(RestoredRow(r, model)))
  {
    if r.id in concepts {
      RecordOverRow(concepts, r, model);
    }
    assert Shown(stage, r.id) == Some(ViewOf(RestoredRow(r, model)));
    RestoreEndsAsLatest(stage, rest, model, r.id);
    assert Home(stage, rest, r.id) == Some(r.namespace);
  }

  /** That is enough for any two orders. */
  lemma BackupsConverge(concepts: map<string, Row>, a: seq<seq<RestoreRecord>>, b: seq<seq<RestoreRecord>>,
                        model: string, id: string)
    requires multiset(a) == multiset(b) && OrderIsImmaterial(concepts, Flat(a), model, id)
    ensures EndsAlike(concepts, a, b, model, id)
  {
    SameBackupsSameRecords(a, b);
    BackupsAreFlat(concepts, a, model);
    BackupsAreFlat(concepts, b, model);
    SameRecordsEndAlike(concepts, Flat(a), Flat(b), model, id);
  }

  /**
   Backups restored in any order show the same of a concept exactly if its namespace is settled
   and its best records show the same. (A backup with two records of one id is refused.)
   */
  lemma BackupsConvergeExactly(concepts: map<string, Row>, backups: seq<seq<RestoreRecord>>, model: string, id: string)
    requires forall b :: b in backups ==> DistinctRecords(b)
    ensures (forall order :: multiset(order) == multiset(backups) ==> EndsAlike(concepts, order, backups, model, id))
      <==> OrderIsImmaterial(concepts, Flat(backups), model, id)
  {
    if OrderIsImmaterial(concepts, Flat(backups), model, id) {
      forall order | multiset(order) == multiset(backups) ensures EndsAlike(concepts, order, backups, model, id) {
        BackupsConverge(concepts, backups, order, model, id);
      }
    }
    if forall order :: multiset(order) == multiset(backups) ==> EndsAlike(concepts, order, backups, model, id) {
      NamespaceIsSettled(concepts, backups, model, id);
      BestShowTheSame(concepts, backups, model, id);
    }
  }

  lemma NamespaceIsSettled(concepts: map<string, Row>, backups: seq<seq<RestoreRecord>>, model: string, id: string)
    requires forall b :: b in backups ==> DistinctRecords(b)
    requires forall order :: multiset(order) == multiset(backups) ==> EndsAlike(concepts, order, backups, model, id)
    ensures id in concepts || OneNamespace(Flat(backups), id)
  {
    if id !in concepts {
      var all := Flat(backups);
      forall r, s | r in all && s in all && r.id == id && s.id == id ensures r.namespace == s.namespace {
        var a := FirstFixesNamespace(concepts, backups, r, model);
        var b := FirstFixesNamespace(concepts, backups, s, model);
        assert EndsAlike(concepts, a, backups, model, id) && EndsAlike(concepts, b, backups, model, id);
      }
    }
  }

  lemma BestShowTheSame(concepts: map<string, Row>, backups: seq<seq<RestoreRecord>>, model: string, id: string)
    requires forall b :: b in backups ==> DistinctRecords(b)
    requires forall order :: multiset(order) == multiset(backups) ==> EndsAlike(concepts, order, backups, model, id)
    requires id in concepts || OneNamespace(Flat(backups), id)
    ensures OrderIsImmaterial(concepts, Flat(backups), model, id)
  {
    var all := Flat(backups);
    var home := Home(concepts, all, id);
    forall r, s | Best(concepts, all, id, home, r) && Best(concepts, all, id, home, s)
      ensures ViewOf(RestoredRow(r, model)) == ViewOf(RestoredRow(s, model))
    {
      var a := BestFirstStays(concepts, backups, r, model);
      var b := BestFirstStays(concepts, backups, s, model);
      assert EndsAlike(concepts, a, backups, model, id) && EndsAlike(concepts, b, backups, model, id);
    }
  }

  /** Two copies of a new concept: the order is immaterial exactly under those two conditions. */
  lemma TwoCopiesConvergeExactly(concepts: map<string, Row>, r: RestoreRecord, s: RestoreRecord, model: string)
    requires r.id == s.id && r.id !in concepts
    ensures var x, y := RestoreBackups(concepts, [[r], [s]], model), RestoreBackups(concepts, [[s], [r]], model);
      r.id in x && r.id in y
      && (ViewOf(x[r.id]) == ViewOf(y[r.id])
          <==> (|| ViewOf(RestoredRow(r, model)) == ViewOf(RestoredRow(s, model))
                || (r.namespace == s.namespace && r.updatedAt != s.updatedAt)))
  {
    TwoRestores(concepts, r, s, model);
    TwoRestores(concepts, s, r, model);
  }

  lemma OneRestore(concepts: map<string, Row>, r: RestoreRecord, policy: ConflictPolicy, model: string)
    ensures RestoreAll(concepts, [r], policy, model) == RestoreEach(concepts, r, policy, model)
  {
    assert [r][..0] == [];
    assert RestoreAll(concepts, [], policy, model) == concepts;
  }

  lemma TwoRestores(concepts: map<string, Row>, r: RestoreRecord, s: RestoreRecord, model: string)
    requires r.id == s.id && r.id !in concepts
    ensures var x := RestoreBackups(concepts, [[r], [s]], model);
      r.id in x
      && var last := if s.namespace == r.namespace && s.updatedAt > r.updatedAt then s else r;
         ViewOf(x[r.id]) == ViewOf(RestoredRow(last, model))
  {
    assert Flat([[r], [s]]) == [r] + [s] by {
      assert [[r], [s]][..1] == [[r]] && [[r]][..0] == [];
      assert Flat([[r]]) == Flat([]) + [r];
    }
    BackupsAreFlat(concepts, [[r], [s]], model);
    RestoreAppend(concepts, [r], [s], Newer, model);
    OneRestore(concepts, r, Newer, model);
    OneRestore(RestoreEach(concepts, r, Newer, model), s, Newer, model);
  }

  /** Two backups of one new concept, as new as each other, with different text. */
  lemma OrderCanMatter(model: string)
    ensures
      var r := RestoreRecord("x", "default", 1, 0, 0, [], Some("a"), None, None, map[], None, None);
      var s := r.(markdown := Some("b"));
      !EndsAlike(map[], [[r], [s]], [[s], [r]], model, "x")
  {
    var r := RestoreRecord("x", "default", 1, 0, 0, [], Some("a"), None, None, map[], None, None);
    var s := r.(markdown := Some("b"));
    assert "a"[0] != "b"[0];
    TwoCopiesConvergeExactly(map[], r, s, model);
  }
}
