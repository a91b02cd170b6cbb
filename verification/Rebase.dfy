/** Rebase: remote commits applied in commit order onto a local working set. */
module Rebase {
  import opened Wrappers
  import opened Ordering
  import opened InsertionMap
  import opened Conflict

  datatype Cursor = Cursor(commitId: string, createdAtMs: int)

  datatype Commit = Commit(cursor: Cursor, thoughtforms: seq<Form>)

  // ------------------------------------------------------ commit order

  predicate CursorBefore(a: Cursor, b: Cursor) {
    || a.createdAtMs < b.createdAtMs
    || (a.createdAtMs == b.createdAtMs && StringLess(a.commitId, b.commitId))
  }

  predicate CommitBefore(a: Commit, b: Commit) {
    CursorBefore(a.cursor, b.cursor)
  }

  lemma CursorOrder(x: Cursor, y: Cursor)
    ensures CursorBefore(x, y) || CursorBefore(y, x) || x == y
    ensures !(CursorBefore(x, y) && CursorBefore(y, x))
    ensures !CursorBefore(x, x)
  {
    StringLessTotal(x.commitId, y.commitId);
    StringLessTotal(x.commitId, x.commitId);
  }

  lemma CursorBeforeTransitive(x: Cursor, y: Cursor, z: Cursor)
    requires CursorBefore(x, y) && CursorBefore(y, z)
    ensures CursorBefore(x, z)
  {
    if StringLess(x.commitId, y.commitId) && StringLess(y.commitId, z.commitId) {
      StringLessTransitive(x.commitId, y.commitId, z.commitId);
    }
  }

  lemma CommitBeforeIsStrictWeakOrder()
    ensures StrictWeakOrder(CommitBefore)
  {
    forall x: Commit ensures !CommitBefore(x, x) {
      CursorOrder(x.cursor, x.cursor);
    }
    forall x: Commit, y: Commit, z: Commit | CommitBefore(x, y) && CommitBefore(y, z)
      ensures CommitBefore(x, z)
    {
      CursorBeforeTransitive(x.cursor, y.cursor, z.cursor);
    }
    forall x: Commit, y: Commit, z: Commit | CommitBefore(x, z)
      ensures CommitBefore(x, y) || CommitBefore(y, z)
    {
      CursorOrder(x.cursor, y.cursor);
      if CursorBefore(y.cursor, x.cursor) {
        CursorBeforeTransitive(y.cursor, x.cursor, z.cursor);
      }
    }
  }

  function InCommitOrder(commits: seq<Commit>): seq<Commit> {
    Sort(commits, CommitBefore)
  }

  function After(commits: seq<Commit>, cursor: Option<Cursor>): (r: seq<Commit>)
    ensures forall c :: c in r ==> c in commits
  {
    if commits == [] then []
    else
      (if cursor.None? || CursorBefore(cursor.value, commits[0].cursor) then [commits[0]] else [])
      + After(commits[1..], cursor)
  }

  /** `commitsAfter`: strictly behind the cursor, oldest first. */
  function CommitsAfter(commits: seq<Commit>, cursor: Option<Cursor>): seq<Commit> {
    After(InCommitOrder(commits), cursor)
  }

  /** Behind the cursor: created later, or at the same time under a greater id. */
  predicate IsBehind(c: Commit, cursor: Option<Cursor>) {
    cursor.Some? ==>
      || c.cursor.createdAtMs > cursor.value.createdAtMs
      || (c.cursor.createdAtMs == cursor.value.createdAtMs && StringLess(cursor.value.commitId, c.cursor.commitId))
  }

  /** The commits behind the cursor, as often as they occur, oldest first and by id among equally old ones. */
  ghost predicate AreApplied(commits: seq<Commit>, cursor: Option<Cursor>, applied: seq<Commit>) {
    && (forall c :: multiset(applied)[c] == if IsBehind(c, cursor) then multiset(commits)[c] else 0)
    && (forall i, j :: 0 <= i < j < |applied| ==>
          var a, b := applied[i].cursor, applied[j].cursor;
          a.createdAtMs < b.createdAtMs || (a.createdAtMs == b.createdAtMs && !StringLess(b.commitId, a.commitId)))
  }

  lemma {:induction false} AfterCounts(commits: seq<Commit>, cursor: Option<Cursor>, c: Commit)
    ensures multiset(After(commits, cursor))[c] == if IsBehind(c, cursor) then multiset(commits)[c] else 0
  {
    if commits != [] {
      AfterCounts(commits[1..], cursor, c);
      assert commits == [commits[0]] + commits[1..];
    }
  }

  lemma {:induction false} AfterKeepsOrder(commits: seq<Commit>, cursor: Option<Cursor>)
    requires Sorted(commits, CommitBefore)
    ensures Sorted(After(commits, cursor), CommitBefore)
  {
    if commits != [] {
      var rest := After(commits[1..], cursor);
      AfterKeepsOrder(commits[1..], cursor);
      forall j | 0 <= j < |rest| ensures !CommitBefore(rest[j], commits[0]) {
        assert rest[j] in commits[1..];
        var p :| 0 <= p < |commits| - 1 && commits[1..][p] == rest[j];
        assert commits[p + 1] == rest[j];
      }
    }
  }

  /** A commit is applied if and only if it is one of the commits and behind the cursor. */
  lemma AppliedExactly(commits: seq<Commit>, cursor: Option<Cursor>)
    ensures AreApplied(commits, cursor, CommitsAfter(commits, cursor))
    ensures forall c :: c in CommitsAfter(commits, cursor) <==> c in commits && IsBehind(c, cursor)
  {
    var applied := CommitsAfter(commits, cursor);
    CommitBeforeIsStrictWeakOrder();
    SortSorts(commits, CommitBefore);
    SortKeepsElements(commits, CommitBefore);
    AfterKeepsOrder(InCommitOrder(commits), cursor);
    forall c ensures multiset(applied)[c] == if IsBehind(c, cursor) then multiset(commits)[c] else 0 {
      AfterCounts(InCommitOrder(commits), cursor, c);
    }
    forall c ensures c in applied <==> c in commits && IsBehind(c, cursor) {
      assert c in applied <==> multiset(applied)[c] > 0;
      assert c in commits <==> multiset(commits)[c] > 0;
    }
    forall i, j | 0 <= i < j < |applied|
      ensures
        var a, b := applied[i].cursor, applied[j].cursor;
        a.createdAtMs < b.createdAtMs || (a.createdAtMs == b.createdAtMs && !StringLess(b.commitId, a.commitId))
    {
      assert !CommitBefore(applied[j], applied[i]);
    }
  }

  // --------------------------------------------------------- the delta

  function DeltaOptions(options: Options): Options {
    options.(policy := UpdatedAt, prefer := None)
  }

  /** One more form of a known or new id. */
  function Absorb(rt: Runtime, byId: JsMap<Form>, tf: Form, options: Options): JsMap<Form> {
    byId.Put(tf.id,
      if byId.Has(tf.id) then ResolveConflict(rt, byId.entries[tf.id], tf, DeltaOptions(options)).winner else tf)
  }

  /** What the nested loops collect from a list of forms. */
  function Collect(rt: Runtime, forms: seq<Form>, options: Options): (m: JsMap<Form>)
    ensures m.Valid() && Keyed(m.entries)
  {
    if forms == [] then Empty()
    else Absorb(rt, Collect(rt, forms[..|forms| - 1], options), forms[|forms| - 1], options)
  }

  /** All forms of the commits, in replay order. */
  function Replay(commits: seq<Commit>): seq<Form> {
    if commits == [] then [] else Replay(commits[..|commits| - 1]) + commits[|commits| - 1].thoughtforms
  }

  method ComputeRemoteDelta(rt: Runtime, commits: seq<Commit>, cursor: Option<Cursor>, options: Options)
    returns (delta: seq<Form>, applied: seq<Commit>)
    ensures applied == CommitsAfter(commits, cursor) && AreApplied(commits, cursor, applied)
    ensures delta == Collect(rt, Replay(applied), options).Values()
    ensures Lawful(rt) && AllVerified(rt, Replay(applied)) ==> AreLatest(rt, Replay(applied), delta)
  {
    applied := CommitsAfter(commits, cursor);
    var byId := AbsorbCommits(rt, applied, options);
    delta := byId.Values();
    AppliedExactly(commits, cursor);
    if Lawful(rt) && AllVerified(rt, Replay(applied)) {
      DeltaIsLatest(rt, Replay(applied), options);
    }
  }

  method AbsorbCommits(rt: Runtime, applied: seq<Commit>, options: Options) returns (byId: JsMap<Form>)
    ensures byId == Collect(rt, Replay(applied), options)
  {
    byId := Empty();
    for i := 0 to |applied|
      invariant byId == Collect(rt, Replay(applied[..i]), options)
    {
      byId := AbsorbCommit(rt, byId, applied[i], Replay(applied[..i]), options);
      assert applied[..i + 1][..i] == applied[..i];
    }
    assert applied[..|applied|] == applied;
  }

  method AbsorbCommit(rt: Runtime, before: JsMap<Form>, commit: Commit, ghost forms: seq<Form>, options: Options)
    returns (byId: JsMap<Form>)
    requires before == Collect(rt, forms, options)
    ensures byId == Collect(rt, forms + commit.thoughtforms, options)
  {
    var tfs := commit.thoughtforms;
    byId := before;
    assert forms + tfs[..0] == forms;
    for j := 0 to |tfs|
      invariant byId == Collect(rt, forms + tfs[..j], options)
    {
      CollectOneMore(rt, forms, tfs, j, options);
      byId := Absorb(rt, byId, tfs[j], options);
    }
    assert tfs[..|tfs|] == tfs;
  }

  lemma CollectOneMore(rt: Runtime, forms: seq<Form>, tfs: seq<Form>, j: nat, options: Options)
    requires j < |tfs|
    ensures Collect(rt, forms + tfs[..j + 1], options)
         == Absorb(rt, Collect(rt, forms + tfs[..j], options), tfs[j], options)
  {
    var all := forms + tfs[..j + 1];
    assert all[..|all| - 1] == forms + tfs[..j];
    assert all[|all| - 1] == tfs[j];
  }

  // -------------------------------------------------------- one rebase

  function NewCursor(applied: seq<Commit>, lastApplied: Option<Cursor>): Option<Cursor> {
    if applied == [] then lastApplied else Some(applied[|applied| - 1].cursor)
  }

  datatype RebaseResult = RebaseResult(
    merged: seq<Form>,
    conflicts: seq<ConflictRecord>,
    remoteDeltaCount: nat,
    appliedCommitCount: nat,
    lastApplied: Option<Cursor>)

  /** The contract of a rebase: which forms it keeps and where the cursor ends. */
  ghost predicate IsRebase(rt: Runtime, local: seq<Form>, commits: seq<Commit>, lastApplied: Option<Cursor>,
                           options: Options, r: RebaseResult) {
    var applied := CommitsAfter(commits, lastApplied);
    var delta := Collect(rt, Replay(applied), options);
    && IsMerge(rt, local, delta.Values(), options, r.merged)
    && r.remoteDeltaCount == |delta.entries|
    && r.appliedCommitCount == |applied|
    && r.lastApplied == NewCursor(applied, lastApplied)
  }

  lemma {:induction false} CountKeys(keys: seq<string>, entries: set<string>)
    requires forall k :: k in entries <==> k in keys
    requires forall i, j :: 0 <= i < j < |keys| ==> keys[i] != keys[j]
    ensures |keys| == |entries|
  {
    if keys == [] {
      assert entries == {};
    } else {
      var k := keys[|keys| - 1];
      assert k in entries && k !in keys[..|keys| - 1];
      CountKeys(keys[..|keys| - 1], entries - {k});
    }
  }

  /** The cursor moves to the latest of the applied commits, by time and then by id, and stays if there are none. */
  ghost predicate IsNewCursor(applied: seq<Commit>, before: Option<Cursor>, after: Option<Cursor>) {
    if applied == [] then after == before
    else
      && after.Some? && (exists c :: c in applied && c.cursor == after.value)
      && forall c :: c in applied ==>
           || c.cursor.createdAtMs < after.value.createdAtMs
           || (c.cursor.createdAtMs == after.value.createdAtMs && !StringLess(after.value.commitId, c.cursor.commitId))
  }

  lemma CursorIsLatest(commits: seq<Commit>, cursor: Option<Cursor>, applied: seq<Commit>)
    requires AreApplied(commits, cursor, applied)
    ensures IsNewCursor(applied, cursor, NewCursor(applied, cursor))
  {
    if applied != [] {
      var n := |applied| - 1;
      assert applied[n] in applied;
      StringLessTotal(applied[n].cursor.commitId, applied[n].cursor.commitId);
      forall c | c in applied
        ensures
          var last := applied[n].cursor;
          || c.cursor.createdAtMs < last.createdAtMs
          || (c.cursor.createdAtMs == last.createdAtMs && !StringLess(last.commitId, c.cursor.commitId))
      {
        var i :| 0 <= i < |applied| && applied[i] == c;
      }
    }
  }

  method RunRebase(rt: Runtime, local: seq<Form>, commits: seq<Commit>, lastApplied: Option<Cursor>, options: Options)
    returns (r: RebaseResult, ghost applied: seq<Commit>, ghost delta: seq<Form>)
    requires Lawful(rt)
    ensures IsRebase(rt, local, commits, lastApplied, options, r)
    ensures AreApplied(commits, lastApplied, applied) && r.appliedCommitCount == |applied|
    ensures AllVerified(rt, Replay(applied)) ==> AreLatest(rt, Replay(applied), delta)
    ensures r.remoteDeltaCount == |delta| && KeepsWinners(rt, local, delta, options, r.merged)
    ensures RecordsConflicts(rt, local, delta, options, r.conflicts)
    ensures IsNewCursor(applied, lastApplied, r.lastApplied)
  {
    var remote, behind := ComputeRemoteDelta(rt, commits, lastApplied, options);
    applied, delta := behind, remote;
    ghost var byId := Collect(rt, Replay(behind), options);
    CountKeys(byId.keys, byId.entries.Keys);
    CursorIsLatest(commits, lastApplied, behind);
    var merged, conflicts := MergeThoughtformSets(rt, local, remote, options);
    r := RebaseResult(merged, conflicts, |remote|, |behind|, NewCursor(behind, lastApplied));
  }

  // ------------------------------------------------ what the delta picks

  /** The left-biased maximum over all forms of one id, in replay order. */
  ghost function LatestOf(rt: Runtime, forms: seq<Form>, id: string): Option<Form> {
    if forms == [] then None
    else Combine(rt, LatestOf(rt, forms[..|forms| - 1], id),
                 if forms[|forms| - 1].id == id then Some(forms[|forms| - 1]) else None)
  }

  function Combine(rt: Runtime, a: Option<Form>, b: Option<Form>): Option<Form> {
    if a.None? then b else if b.None? then a else Some(Latest(rt, a.value, b.value))
  }

  lemma CombineAssociative(rt: Runtime, a: Option<Form>, b: Option<Form>, c: Option<Form>)
    requires Lawful(rt)
    ensures Combine(rt, Combine(rt, a, b), c) == Combine(rt, a, Combine(rt, b, c))
  {
    if a.Some? && b.Some? && c.Some? {
      LatestAssociative(rt, a.value, b.value, c.value);
    }
  }

  lemma {:induction false} LatestOfAppend(rt: Runtime, a: seq<Form>, b: seq<Form>, id: string)
    requires Lawful(rt)
    ensures LatestOf(rt, a + b, id) == Combine(rt, LatestOf(rt, a, id), LatestOf(rt, b, id))
  {
    if b == [] {
      assert a + b == a;
    } else {
      var init, last := b[..|b| - 1], b[|b| - 1];
      LatestOfAppend(rt, a, init, id);
      assert (a + b)[..|a + b| - 1] == a + init;
      CombineAssociative(rt, LatestOf(rt, a, id), LatestOf(rt, init, id),
                         if last.id == id then Some(last) else None);
    }
  }

  function Entry(m: map<string, Form>, id: string): Option<Form> {
    if id in m then Some(m[id]) else None
  }

  lemma {:induction false} LatestOfVerified(rt: Runtime, forms: seq<Form>, id: string)
    requires AllVerified(rt, forms)
    ensures LatestOf(rt, forms, id).Some?
      ==> LatestOf(rt, forms, id).value in forms && LatestOf(rt, forms, id).value.id == id
  {
    if forms != [] {
      var init := forms[..|forms| - 1];
      assert forall x :: x in init ==> x in forms;
      LatestOfVerified(rt, init, id);
    }
  }

  /** With verified hashes the delta holds, for every id, the latest of its forms. */
  lemma {:induction false} CollectIsLatest(rt: Runtime, forms: seq<Form>, options: Options, id: string)
    requires Lawful(rt) && AllVerified(rt, forms)
    ensures Entry(Collect(rt, forms, options).entries, id) == LatestOf(rt, forms, id)
  {
    if forms != [] {
      var init, last := forms[..|forms| - 1], forms[|forms| - 1];
      assert forall x :: x in init ==> x in forms;
      CollectIsLatest(rt, init, options, id);
      if last.id == id {
        LatestOfVerified(rt, init, id);
        assert last in forms;
        if LatestOf(rt, init, id).Some? {
          ResolveIsLatest(rt, LatestOf(rt, init, id).value, last, DeltaOptions(options));
        }
      }
    }
  }

  /** No form of the same id comes later in (updatedAtMs, contentHash) than the one picked. */
  lemma {:induction false} LatestIsUnbeaten(rt: Runtime, forms: seq<Form>, id: string, tf: Form)
    requires Lawful(rt) && tf in forms && tf.id == id
    ensures LatestOf(rt, forms, id).Some? && !Beats(rt, tf, LatestOf(rt, forms, id).value)
  {
    var init, last := forms[..|forms| - 1], forms[|forms| - 1];
    if tf in init {
      LatestIsUnbeaten(rt, init, id, tf);
      var w := LatestOf(rt, init, id).value;
      if last.id == id && Beats(rt, last, w) && Beats(rt, tf, last) {
        BeatsTransitive(rt, tf, last, w);
      }
    } else {
      assert tf == last;
      assert rt.compare(tf.contentHash, tf.contentHash) == 0;
    }
  }

  /** The latest form of its id, in (updatedAtMs, contentHash); among ties the first one. */
  ghost predicate IsLatest(rt: Runtime, forms: seq<Form>, i: nat) {
    && i < |forms|
    && (forall j :: 0 <= j < i && forms[j].id == forms[i].id ==> Beats(rt, forms[i], forms[j]))
    && (forall j :: i < j < |forms| && forms[j].id == forms[i].id ==> !Beats(rt, forms[j], forms[i]))
  }

  ghost predicate IsLatestOfSome(rt: Runtime, forms: seq<Form>, tf: Form) {
    exists i: nat :: IsLatest(rt, forms, i) && forms[i] == tf
  }

  /** Exactly the latest forms, one of every id, in the order in which the ids first occur. */
  ghost predicate AreLatest(rt: Runtime, forms: seq<Form>, delta: seq<Form>) {
    && (forall i: nat :: IsLatest(rt, forms, i) ==> forms[i] in delta)
    && (forall tf :: tf in delta ==> IsLatestOfSome(rt, forms, tf))
    && forall a, b :: 0 <= a < b < |delta| ==> FirstSeen(forms, delta[a].id) < FirstSeen(forms, delta[b].id)
  }

  lemma {:induction false} LatestIsPicked(rt: Runtime, forms: seq<Form>, i: nat)
    requires Lawful(rt) && AllVerified(rt, forms) && IsLatest(rt, forms, i)
    ensures LatestOf(rt, forms, forms[i].id) == Some(forms[i])
  {
    var n := |forms| - 1;
    var init, last := forms[..n], forms[n];
    assert forall x :: x in init ==> x in forms;
    if i < n {
      LatestIsPicked(rt, init, i);
    } else {
      LatestOfVerified(rt, init, last.id);
    }
  }

  lemma BeatsAllOthers(rt: Runtime, forms: seq<Form>, id: string, w: Form, last: Form)
    requires Lawful(rt) && LatestOf(rt, forms, id) == Some(w) && Beats(rt, last, w)
    ensures forall tf :: tf in forms && tf.id == id ==> Beats(rt, last, tf)
  {
    forall tf | tf in forms && tf.id == id ensures Beats(rt, last, tf) {
      LatestIsUnbeaten(rt, forms, id, tf);
      BeatsSplits(rt, last, tf, w);
    }
  }

  lemma {:induction false} PickedIsLatest(rt: Runtime, forms: seq<Form>, id: string) returns (i: nat)
    requires Lawful(rt) && LatestOf(rt, forms, id).Some?
    ensures IsLatest(rt, forms, i) && forms[i].id == id && LatestOf(rt, forms, id) == Some(forms[i])
  {
    var n := |forms| - 1;
    var init, last := forms[..n], forms[n];
    var w := LatestOf(rt, init, id);
    if last.id == id && (w.None? || Beats(rt, last, w.value)) {
      i := n;
      forall j | 0 <= j < n && forms[j].id == id ensures Beats(rt, last, forms[j]) {
        assert forms[j] in init;
        LatestIsUnbeaten(rt, init, id, forms[j]);
        BeatsAllOthers(rt, init, id, w.value, last);
      }
    } else {
      i := PickedIsLatest(rt, init, id);
    }
  }

  lemma {:induction false} CollectedKeys(rt: Runtime, forms: seq<Form>, options: Options)
    ensures Collect(rt, forms, options).keys == LastById(forms).keys
    ensures Collect(rt, forms, options).entries.Keys == LastById(forms).entries.Keys
  {
    if forms != [] {
      CollectedKeys(rt, forms[..|forms| - 1], options);
    }
  }

  /** The delta lists exactly the latest form of every id. */
  lemma DeltaIsLatest(rt: Runtime, forms: seq<Form>, options: Options)
    requires Lawful(rt) && AllVerified(rt, forms)
    ensures AreLatest(rt, forms, Collect(rt, forms, options).Values())
  {
    var m := Collect(rt, forms, options);
    var delta := m.Values();
    CollectedKeys(rt, forms, options);
    KeysAsSeen(forms);
    forall a | 0 <= a < |delta| ensures delta[a].id == m.keys[a] {
      assert m.keys[a] in m.entries;
    }
    forall i: nat | IsLatest(rt, forms, i) ensures forms[i] in delta {
      LatestIsListed(rt, forms, options, i);
    }
    forall tf | tf in delta ensures IsLatestOfSome(rt, forms, tf) {
      CollectIsLatest(rt, forms, options, tf.id);
      var i := PickedIsLatest(rt, forms, tf.id);
    }
  }

  lemma LatestIsListed(rt: Runtime, forms: seq<Form>, options: Options, i: nat)
    requires Lawful(rt) && AllVerified(rt, forms) && IsLatest(rt, forms, i)
    ensures forms[i] in Collect(rt, forms, options).Values()
  {
    LatestIsPicked(rt, forms, i);
    CollectIsLatest(rt, forms, options, forms[i].id);
    InValues(Collect(rt, forms, options), forms[i].id);
  }

  lemma InValues(m: JsMap<Form>, id: string)
    requires m.Valid() && id in m.entries
    ensures m.entries[id] in m.Values()
  {
    var a :| 0 <= a < |m.keys| && m.keys[a] == id;
    assert m.Values()[a] == m.entries[id];
  }

  // -------------------------------------------- incremental == one shot

  ghost predicate DistinctCommits(commits: seq<Commit>) {
    forall i, j :: 0 <= i < j < |commits| ==> commits[i].cursor != commits[j].cursor
  }

  lemma DistinctCommitsUntied(commits: seq<Commit>)
    requires DistinctCommits(commits)
    ensures Untied(multiset(commits), CommitBefore)
  {
    forall x, y | x in multiset(commits) && y in multiset(commits) && x != y
      ensures CommitBefore(x, y) || CommitBefore(y, x)
    {
      assert x in commits && y in commits;
      CursorOrder(x.cursor, y.cursor);
    }
  }

  ghost predicate StrictlyOrdered(commits: seq<Commit>) {
    forall i, j :: 0 <= i < j < |commits| ==> CommitBefore(commits[i], commits[j])
  }

  lemma InCommitOrderIsStrict(commits: seq<Commit>)
    requires DistinctCommits(commits)
    ensures StrictlyOrdered(InCommitOrder(commits))
  {
    var s := InCommitOrder(commits);
    CommitBeforeIsStrictWeakOrder();
    SortSorts(commits, CommitBefore);
    SortKeepsElements(commits, CommitBefore);
    DistinctCommitsUntied(commits);
    forall i, j | 0 <= i < j < |s| ensures CommitBefore(s[i], s[j]) {
      assert s[i] in multiset(s) && s[j] in multiset(s);
      if s[i] == s[j] {
        RepeatedElement(s, i, j);
        ListedOnce(commits, s[i]);
      }
    }
  }

  lemma {:induction false} AfterAll(commits: seq<Commit>)
    ensures After(commits, None) == commits
  {
    if commits != [] {
      AfterAll(commits[1..]);
    }
  }

  /** Everything up to the n-th commit is behind the cursor, everything else in front of it. */
  lemma {:induction false} AfterPrefix(s: seq<Commit>, n: nat, cursor: Cursor)
    requires n <= |s|
    requires forall i :: 0 <= i < n ==> !CursorBefore(cursor, s[i].cursor)
    requires forall i :: n <= i < |s| ==> CursorBefore(cursor, s[i].cursor)
    ensures After(s, Some(cursor)) == s[n..]
  {
    if s != [] {
      if n == 0 {
        AfterPrefix(s[1..], 0, cursor);
      } else {
        AfterPrefix(s[1..], n - 1, cursor);
      }
    }
  }

  lemma NotBehindItself(s: seq<Commit>, n: nat, i: nat)
    requires StrictlyOrdered(s) && i < n <= |s|
    ensures !CursorBefore(s[n - 1].cursor, s[i].cursor)
  {
    CursorOrder(s[i].cursor, s[n - 1].cursor);
    if i < n - 1 {
      assert CommitBefore(s[i], s[n - 1]);
    }
  }

  lemma CursorSplits(s: seq<Commit>, n: nat)
    requires StrictlyOrdered(s) && 0 < n <= |s|
    ensures After(s, Some(s[n - 1].cursor)) == s[n..]
  {
    var cursor := s[n - 1].cursor;
    forall i | 0 <= i < n ensures !CursorBefore(cursor, s[i].cursor) {
      NotBehindItself(s, n, i);
    }
    forall i | n <= i < |s| ensures CursorBefore(cursor, s[i].cursor) {
      assert CommitBefore(s[n - 1], s[i]);
    }
    AfterPrefix(s, n, cursor);
  }

  lemma {:induction false} ReplayAppend(a: seq<Commit>, b: seq<Commit>)
    ensures Replay(a + b) == Replay(a) + Replay(b)
  {
    if b == [] {
      assert a + b == a;
    } else {
      var init, last := b[..|b| - 1], b[|b| - 1];
      ReplayAppend(a, init);
      assert (a + b)[..|a + b| - 1] == a + init;
      assert (Replay(a) + Replay(init)) + last.thoughtforms == Replay(a) + (Replay(init) + last.thoughtforms);
    }
  }

  lemma ReplaySplit(s: seq<Commit>, n: nat)
    requires n <= |s|
    ensures Replay(s) == Replay(s[..n]) + Replay(s[n..])
  {
    assert s == s[..n] + s[n..];
    ReplayAppend(s[..n], s[n..]);
  }

  /** The delta as a map; its listing loses nothing. */
  lemma DeltaListing(rt: Runtime, forms: seq<Form>, options: Options)
    ensures var m := Collect(rt, forms, options); LastById(m.Values()).entries == m.entries
  {
    var m := Collect(rt, forms, options);
    ValuesList(m);
    LastByIdOfListing(m.Values(), m.entries);
  }

  lemma ValuesList(m: JsMap<Form>)
    requires m.Valid() && Keyed(m.entries)
    ensures Lists(m.Values(), m.entries)
  {
    var vs := m.Values();
    forall i | 0 <= i < |vs| ensures vs[i].id == m.keys[i] {
      assert m.keys[i] in m.entries;
    }
    forall id | id in m.entries ensures m.entries[id] in vs {
      var i :| 0 <= i < |m.keys| && m.keys[i] == id;
      assert vs[i] == m.entries[id];
    }
  }

  lemma SameEntries(a: map<string, Form>, b: map<string, Form>)
    requires forall id :: Entry(a, id) == Entry(b, id)
    ensures a == b
  {
    assert forall id :: id in a <==> Entry(a, id).Some?;
    assert forall id :: id in b <==> Entry(b, id).Some?;
  }

  lemma MergedEntryIsLatest(rt: Runtime, local: map<string, Form>, remote: map<string, Form>, options: Options,
                            id: string)
    requires Lawful(rt) && LastWriteWins(options)
    requires id in local ==> Verified(rt, local[id])
    requires id in remote ==> Verified(rt, remote[id])
    ensures Entry(MergedMap(rt, local, remote, options), id) == Combine(rt, Entry(local, id), Entry(remote, id))
    ensures id in MergedMap(rt, local, remote, options) ==> Verified(rt, MergedMap(rt, local, remote, options)[id])
  {
    if id in local || id in remote {
      MergedEntry(rt, local, remote, options, id);
      if id in local && id in remote {
        ResolveIsLatest(rt, local[id], remote[id], options);
      }
    }
  }

  ghost predicate AllCommitsVerified(rt: Runtime, commits: seq<Commit>) {
    forall c :: c in commits ==> AllVerified(rt, c.thoughtforms)
  }

  lemma {:induction false} ReplayVerified(rt: Runtime, commits: seq<Commit>)
    requires AllCommitsVerified(rt, commits)
    ensures AllVerified(rt, Replay(commits))
  {
    if commits != [] {
      assert forall c :: c in commits[..|commits| - 1] ==> c in commits;
      ReplayVerified(rt, commits[..|commits| - 1]);
      assert commits[|commits| - 1] in commits;
    }
  }

  /** What one rebase keeps under an id: the latest of the local form and the new remote ones. */
  ghost predicate KeepsLatest(rt: Runtime, local: seq<Form>, forms: seq<Form>, merged: seq<Form>) {
    forall id :: Entry(LastById(merged).entries, id)
              == Combine(rt, Entry(LastById(local).entries, id), LatestOf(rt, forms, id))
  }

  lemma RebaseKeepsLatest(rt: Runtime, local: seq<Form>, forms: seq<Form>, options: Options, merged: seq<Form>)
    requires Lawful(rt) && LastWriteWins(options)
    requires AllVerified(rt, local) && AllVerified(rt, forms)
    requires IsMerge(rt, local, Collect(rt, forms, options).Values(), options, merged)
    ensures KeepsLatest(rt, local, forms, merged)
  {
    var l, d := LastById(local).entries, Collect(rt, forms, options).entries;
    DeltaListing(rt, forms, options);
    MergedMapKeyed(rt, l, d, options);
    LastByIdOfListing(merged, MergedMap(rt, l, d, options));
    forall id ensures Entry(LastById(merged).entries, id) == Combine(rt, Entry(l, id), LatestOf(rt, forms, id)) {
      CollectIsLatest(rt, forms, options, id);
      LatestOfVerified(rt, forms, id);
      if id in l {
        LastByIdComesFrom(local, id);
      }
      MergedEntryIsLatest(rt, l, d, options, id);
    }
  }

  lemma MergedVerified(rt: Runtime, local: seq<Form>, forms: seq<Form>, merged: seq<Form>, m: map<string, Form>)
    requires AllVerified(rt, local) && AllVerified(rt, forms)
    requires KeepsLatest(rt, local, forms, merged) && Lists(merged, m) && Keyed(m)
    ensures AllVerified(rt, merged)
  {
    LastByIdOfListing(merged, m);
    forall tf | tf in merged ensures Verified(rt, tf) {
      var i :| 0 <= i < |merged| && merged[i] == tf;
      assert Entry(m, tf.id) == Some(tf);
      LatestOfVerified(rt, forms, tf.id);
      if tf.id in LastById(local).entries {
        LastByIdComesFrom(local, tf.id);
      }
    }
  }

  /** The two merged lists keep the same form under every id, so they are the same list. */
  lemma SameMerge(rt: Runtime, a: seq<Form>, ma: map<string, Form>, b: seq<Form>, mb: map<string, Form>)
    requires Lawful(rt) && Lists(a, ma) && Lists(b, mb) && Keyed(ma) && Keyed(mb)
    requires Sorted(a, OutputOrder(rt)) && Sorted(b, OutputOrder(rt))
    requires forall id :: Entry(LastById(a).entries, id) == Entry(LastById(b).entries, id)
    ensures a == b
  {
    LastByIdOfListing(a, ma);
    LastByIdOfListing(b, mb);
    SameEntries(ma, mb);
    SortedListingUnique(rt, a, b, ma);
  }

  /** The commits the first rebase saw: the first `n` in commit order, listed in any order. */
  ghost predicate IsPrefixOf(earlier: seq<Commit>, n: nat, commits: seq<Commit>) {
    n <= |commits| && multiset(earlier) == multiset(InCommitOrder(commits)[..n])
  }

  lemma PrefixInOrder(earlier: seq<Commit>, n: nat, commits: seq<Commit>)
    requires DistinctCommits(commits) && IsPrefixOf(earlier, n, commits)
    ensures InCommitOrder(earlier) == InCommitOrder(commits)[..n]
  {
    var s := InCommitOrder(commits);
    InCommitOrderIsStrict(commits);
    CommitBeforeIsStrictWeakOrder();
    SortSorts(earlier, CommitBefore);
    SortKeepsElements(earlier, CommitBefore);
    StrictIsSorted(s[..n]);
    SortedUnique(s[..n], InCommitOrder(earlier), CommitBefore);
  }

  lemma StrictIsSorted(s: seq<Commit>)
    requires StrictlyOrdered(s)
    ensures Sorted(s, CommitBefore) && Untied(multiset(s), CommitBefore)
  {
    forall i, j | 0 <= i < j < |s| ensures !CommitBefore(s[j], s[i]) {
      assert CommitBefore(s[i], s[j]);
      CursorOrder(s[i].cursor, s[j].cursor);
    }
    forall x, y | x in multiset(s) && y in multiset(s) && x != y
      ensures CommitBefore(x, y) || CommitBefore(y, x)
    {
      assert x in s && y in s;
    }
  }

  /** From the cursor behind the first `n` commits, exactly the others are applied. */
  lemma CursorResumes(s: seq<Commit>, n: nat, cursor: Option<Cursor>)
    requires StrictlyOrdered(s) && n <= |s| && cursor == NewCursor(s[..n], None)
    ensures After(s, cursor) == s[n..]
    ensures NewCursor(s[n..], cursor) == NewCursor(s, None)
  {
    if n == 0 {
      AfterAll(s);
    } else {
      assert cursor == Some(s[n - 1].cursor);
      CursorSplits(s, n);
      LastBehind(s, n);
    }
  }

  lemma LastBehind(s: seq<Commit>, n: nat)
    requires 0 < n <= |s|
    ensures NewCursor(s[n..], Some(s[n - 1].cursor)) == NewCursor(s, None)
  {
  }

  lemma StepsApply(earlier: seq<Commit>, n: nat, commits: seq<Commit>)
    requires DistinctCommits(commits) && IsPrefixOf(earlier, n, commits)
    ensures var s := InCommitOrder(commits);
      var cursor := NewCursor(CommitsAfter(earlier, None), None);
      && CommitsAfter(earlier, None) == s[..n]
      && CommitsAfter(commits, cursor) == s[n..]
      && CommitsAfter(commits, None) == s
      && NewCursor(s[n..], cursor) == NewCursor(s, None)
  {
    var s := InCommitOrder(commits);
    PrefixInOrder(earlier, n, commits);
    AfterAll(s[..n]);
    AfterAll(s);
    InCommitOrderIsStrict(commits);
    CursorResumes(s, n, NewCursor(CommitsAfter(earlier, None), None));
  }

  /**
   Rebasing over the commits seen so far and later over all of them from the stored
   cursor ends exactly where one rebase from no cursor ends.
   */
  lemma IncrementalRebaseIsOneShot(rt: Runtime, local: seq<Form>, earlier: seq<Commit>, n: nat,
                                   commits: seq<Commit>, options: Options,
                                   first: RebaseResult, second: RebaseResult, once: RebaseResult)
    requires Lawful(rt) && LastWriteWins(options)
    requires AllVerified(rt, local) && AllCommitsVerified(rt, commits)
    requires DistinctCommits(commits) && IsPrefixOf(earlier, n, commits)
    requires IsRebase(rt, local, earlier, None, options, first)
    requires IsRebase(rt, first.merged, commits, first.lastApplied, options, second)
    requires IsRebase(rt, local, commits, None, options, once)
    ensures second.merged == once.merged && second.lastApplied == once.lastApplied
  {
    var s := InCommitOrder(commits);
    StepsApply(earlier, n, commits);
    OrderedVerified(rt, commits, n);
    ReplaySplit(s, n);
    RebaseMerges(rt, local, earlier, None, options, first);
    RebaseMerges(rt, first.merged, commits, first.lastApplied, options, second);
    RebaseMerges(rt, local, commits, None, options, once);
    IncrementalMerge(rt, local, Replay(s[..n]), Replay(s[n..]), options, first.merged, second.merged, once.merged);
  }

  lemma RebaseMerges(rt: Runtime, local: seq<Form>, commits: seq<Commit>, cursor: Option<Cursor>,
                     options: Options, r: RebaseResult)
    requires IsRebase(rt, local, commits, cursor, options, r)
    ensures IsMerge(rt, local, Collect(rt, Replay(CommitsAfter(commits, cursor)), options).Values(), options, r.merged)
    ensures r.lastApplied == NewCursor(CommitsAfter(commits, cursor), cursor)
  {
  }

  lemma OrderedVerified(rt: Runtime, commits: seq<Commit>, n: nat)
    requires AllCommitsVerified(rt, commits) && n <= |commits|
    ensures var s := InCommitOrder(commits);
      AllVerified(rt, Replay(s[..n])) && AllVerified(rt, Replay(s[n..]))
  {
    var s := InCommitOrder(commits);
    SortKeepsElements(commits, CommitBefore);
    forall c | c in s ensures c in commits {
      assert c in multiset(s);
    }
    assert forall c :: c in s[..n] ==> c in s;
    assert forall c :: c in s[n..] ==> c in s;
    ReplayVerified(rt, s[..n]);
    ReplayVerified(rt, s[n..]);
  }

  lemma IncrementalMerge(rt: Runtime, local: seq<Form>, p: seq<Form>, q: seq<Form>, options: Options,
                         first: seq<Form>, second: seq<Form>, once: seq<Form>)
    requires Lawful(rt) && LastWriteWins(options)
    requires AllVerified(rt, local) && AllVerified(rt, p) && AllVerified(rt, q)
    requires IsMerge(rt, local, Collect(rt, p, options).Values(), options, first)
    requires IsMerge(rt, first, Collect(rt, q, options).Values(), options, second)
    requires IsMerge(rt, local, Collect(rt, p + q, options).Values(), options, once)
    ensures second == once
  {
    var m1 := MergeTarget(rt, local, p, options, first);
    var m2 := MergeTarget(rt, first, q, options, second);
    var m3 := MergeTarget(rt, local, p + q, options, once);
    RebaseKeepsLatest(rt, local, p, options, first);
    MergedVerified(rt, local, p, first, m1);
    RebaseKeepsLatest(rt, first, q, options, second);
    assert AllVerified(rt, p + q);
    RebaseKeepsLatest(rt, local, p + q, options, once);
    forall id ensures Entry(LastById(second).entries, id) == Entry(LastById(once).entries, id) {
      LatestOfAppend(rt, p, q, id);
      CombineAssociative(rt, Entry(LastById(local).entries, id), LatestOf(rt, p, id), LatestOf(rt, q, id));
    }
    SameMerge(rt, second, m2, once, m3);
  }

  lemma MergeTarget(rt: Runtime, local: seq<Form>, forms: seq<Form>, options: Options, merged: seq<Form>)
    returns (m: map<string, Form>)
    requires IsMerge(rt, local, Collect(rt, forms, options).Values(), options, merged)
    ensures Lists(merged, m) && Keyed(m)
  {
    var l, r := LastById(local).entries, LastById(Collect(rt, forms, options).Values()).entries;
    m := MergedMap(rt, l, r, options);
    MergedMapKeyed(rt, l, r, options);
  }

  /** Rebasing a rebased set again over the same commits from no cursor changes nothing. */
  lemma ReplayIsHarmless(rt: Runtime, local: seq<Form>, commits: seq<Commit>, options: Options,
                         first: RebaseResult, again: RebaseResult)
    requires Lawful(rt)
    requires IsRebase(rt, local, commits, None, options, first)
    requires IsRebase(rt, first.merged, commits, None, options, again)
    ensures again.merged == first.merged && again.lastApplied == first.lastApplied
  {
    MergeIsIdempotent(rt, local, Collect(rt, Replay(CommitsAfter(commits, None)), options).Values(), options,
                      first.merged, again.merged);
  }
}
