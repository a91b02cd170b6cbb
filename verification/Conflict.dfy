/** Conflict resolution between two copies of a ThoughtForm, and the merge of two sets. */
module Conflict {
  import opened Wrappers
  import opened Ordering
  import opened JsonText
  import opened Canonical
  import opened InsertionMap

  /** What the JavaScript runtime provides: SHA-256 of a string and `localeCompare`. */
  datatype Runtime = Runtime(sha256: string -> string, compare: (string, string) -> int)

  /** `localeCompare` is taken to be a total order. */
  ghost predicate Lawful(rt: Runtime) {
    && (forall a, b :: rt.compare(a, b) == 0 <==> a == b)
    && (forall a, b :: rt.compare(a, b) < 0 <==> rt.compare(b, a) > 0)
    && (forall a, b, c :: rt.compare(a, b) < 0 && rt.compare(b, c) < 0 ==> rt.compare(a, c) < 0)
  }

  /** `rest` holds every field that neither hashing nor conflict resolution reads. */
  datatype Form = Form(
    id: string,
    rawText: Option<string>,
    entities: Json,
    relationships: Json,
    contextGraph: Json,
    updatedAtMs: int,
    contentHash: string,
    source: string,
    rest: Json)

  function ContentOf(tf: Form): Json {
    Obj([ Member("rawText", if tf.rawText.Some? then Str(tf.rawText.value) else Null),
          Member("entities", tf.entities),
          Member("relationships", tf.relationships),
          Member("contextGraph", tf.contextGraph) ])
  }

  function ComputeContentHash(rt: Runtime, tf: Form): string {
    rt.sha256(CanonicalJson(ContentOf(tf)))
  }

  /** The stored hash describes the content; backup and rebase refuse any other form. */
  ghost predicate Verified(rt: Runtime, tf: Form) {
    tf.contentHash == ComputeContentHash(rt, tf)
  }

  ghost predicate AllVerified(rt: Runtime, forms: seq<Form>) {
    forall tf :: tf in forms ==> Verified(rt, tf)
  }

  /**
   Unless SHA-256 collides on the two canonical texts, verified hashes are equal exactly
   when the contents are equal up to the order of object keys.
   */
  lemma HashDecidesContent(rt: Runtime, a: Form, b: Form)
    requires Verified(rt, a) && Verified(rt, b)
    requires WellFormed(ContentOf(a)) && WellFormed(ContentOf(b))
    requires var x, y := CanonicalJson(ContentOf(a)), CanonicalJson(ContentOf(b));
      rt.sha256(x) == rt.sha256(y) ==> x == y
    ensures a.contentHash == b.contentHash <==> SameContent(a, b)
  {
    CanonicalJsonDecidesMeaning(ContentOf(a), ContentOf(b));
    ContentMeansFields(a, b);
  }

  /** The same text, entities, relationships and graph, up to the order of object keys. */
  ghost predicate SameContent(a: Form, b: Form) {
    && a.rawText == b.rawText && MeaningOf(a.entities) == MeaningOf(b.entities)
    && MeaningOf(a.relationships) == MeaningOf(b.relationships)
    && MeaningOf(a.contextGraph) == MeaningOf(b.contextGraph)
  }

  lemma ContentMeansFields(a: Form, b: Form)
    requires WellFormed(ContentOf(a)) && WellFormed(ContentOf(b))
    ensures MeaningOf(ContentOf(a)) == MeaningOf(ContentOf(b)) <==> SameContent(a, b)
  {
    ContentMeans(a);
    ContentMeans(b);
    if SameContent(a, b) {
      SameEntries(MeaningOfMembers(ContentOf(a).members), MeaningOfMembers(ContentOf(b).members));
    }
  }

  lemma SameEntries(m: map<string, Meaning>, n: map<string, Meaning>)
    requires m.Keys == n.Keys == {"rawText", "entities", "relationships", "contextGraph"}
    requires m["rawText"] == n["rawText"] && m["entities"] == n["entities"]
    requires m["relationships"] == n["relationships"] && m["contextGraph"] == n["contextGraph"]
    ensures m == n
  {
  }

  lemma ContentMeans(tf: Form)
    requires WellFormed(ContentOf(tf))
    ensures
      var m := MeaningOfMembers(ContentOf(tf).members);
      && MeaningOf(ContentOf(tf)) == MObj(m) && m.Keys == {"rawText", "entities", "relationships", "contextGraph"}
      && m["rawText"] == (if tf.rawText.Some? then MStr(tf.rawText.value) else MNull)
      && m["entities"] == MeaningOf(tf.entities) && m["relationships"] == MeaningOf(tf.relationships)
      && m["contextGraph"] == MeaningOf(tf.contextGraph)
  {
    var ms := ContentOf(tf).members;
    MemberMeaning(ms, 0);
    MemberMeaning(ms, 1);
    MemberMeaning(ms, 2);
    MemberMeaning(ms, 3);
    forall k | k in MeaningOfMembers(ms) ensures k in {"rawText", "entities", "relationships", "contextGraph"} {
      var i := MeaningKey(ms, k);
    }
  }

  // ------------------------------------------------------- one conflict

  datatype Policy = UpdatedAt | PreferLocal | PreferRemote

  datatype Origin = Onchain | Local

  datatype Options = Options(policy: Policy, prefer: Option<Origin>, skewWindowMs: Option<int>)

  datatype Outcome = LocalWins | RemoteWins | NoConflict

  datatype Reason =
    | IdenticalContentHash
    | PolicyPreferLocal
    | PolicyPreferRemote
    | PreferLocalWithinSkew
    | PreferOnchainWithinSkew
    | NewerUpdatedAt
    | ContentHashTiebreak
    | SourceTiebreak
    | IdTiebreak

  datatype ConflictRecord = ConflictRecord(
    id: string, outcome: Outcome, winner: Form, loser: Option<Form>, reason: Reason)

  const DEFAULT_SKEW_WINDOW_MS := 300_000

  function Decide(local: Form, remote: Form, localWins: bool, reason: Reason): ConflictRecord {
    if localWins then ConflictRecord(local.id, LocalWins, local, Some(remote), reason)
    else ConflictRecord(local.id, RemoteWins, remote, Some(local), reason)
  }

  function Distance(a: int, b: int): nat {
    if a < b then b - a else a - b
  }

  function ResolveConflict(rt: Runtime, local: Form, remote: Form, options: Options)
    : (r: ConflictRecord)
    ensures r.winner == local || r.winner == remote
  {
    if local.contentHash == remote.contentHash
       && ComputeContentHash(rt, local) == ComputeContentHash(rt, remote)
    then
      var winner := if local.updatedAtMs >= remote.updatedAtMs then local else remote;
      ConflictRecord(local.id, NoConflict, winner, None, IdenticalContentHash)
    else if options.policy.PreferLocal? then Decide(local, remote, true, PolicyPreferLocal)
    else if options.policy.PreferRemote? then Decide(local, remote, false, PolicyPreferRemote)
    else
      var delta := Distance(local.updatedAtMs, remote.updatedAtMs);
      var hash := rt.compare(local.contentHash, remote.contentHash);
      var source := rt.compare(local.source, remote.source);
      if options.prefer.Some? && delta <= options.skewWindowMs.GetOr(DEFAULT_SKEW_WINDOW_MS) then
        if options.prefer.value.Local? then Decide(local, remote, true, PreferLocalWithinSkew)
        else Decide(local, remote, false, PreferOnchainWithinSkew)
      else if local.updatedAtMs != remote.updatedAtMs then
        Decide(local, remote, local.updatedAtMs > remote.updatedAtMs, NewerUpdatedAt)
      else if hash != 0 then Decide(local, remote, hash > 0, ContentHashTiebreak)
      else if source != 0 then Decide(local, remote, source > 0, SourceTiebreak)
      else Decide(local, remote, rt.compare(local.id, remote.id) >= 0, IdTiebreak)
  }

  /** What each reason says about the two copies and the winner. */
  ghost predicate IsTrue(rt: Runtime, reason: Reason, winner: Form, loser: Form, localWon: bool, options: Options) {
    var window := if options.skewWindowMs.Some? then options.skewWindowMs.value else 300_000;
    var close := winner.updatedAtMs - loser.updatedAtMs <= window && loser.updatedAtMs - winner.updatedAtMs <= window;
    var byTime := options.policy == UpdatedAt && !(options.prefer.Some? && close);
    match reason
    case IdenticalContentHash => false
    case PolicyPreferLocal => options.policy == PreferLocal && localWon
    case PolicyPreferRemote => options.policy == PreferRemote && !localWon
    case PreferLocalWithinSkew => options.policy == UpdatedAt && options.prefer == Some(Local) && close && localWon
    case PreferOnchainWithinSkew => options.policy == UpdatedAt && options.prefer == Some(Onchain) && close && !localWon
    case NewerUpdatedAt => byTime && winner.updatedAtMs > loser.updatedAtMs
    case ContentHashTiebreak =>
      byTime && winner.updatedAtMs == loser.updatedAtMs && rt.compare(winner.contentHash, loser.contentHash) > 0
    case SourceTiebreak =>
      && byTime && winner.updatedAtMs == loser.updatedAtMs
      && winner.contentHash == loser.contentHash && rt.compare(winner.source, loser.source) > 0
    case IdTiebreak =>
      && byTime && winner.updatedAtMs == loser.updatedAtMs
      && winner.contentHash == loser.contentHash && winner.source == loser.source
      && rt.compare(winner.id, loser.id) >= 0 && (winner.id == loser.id ==> localWon)
  }

  /** A record of a conflict names both copies, the side that won and a reason that is true of them. */
  lemma ConflictRecordIsTrue(rt: Runtime, local: Form, remote: Form, options: Options)
    requires Lawful(rt)
    ensures
      var r := ResolveConflict(rt, local, remote, options);
      var same := local.contentHash == remote.contentHash
                  && ComputeContentHash(rt, local) == ComputeContentHash(rt, remote);
      && r.id == local.id && (r.outcome == NoConflict <==> same)
      && (same ==> r.reason == IdenticalContentHash && r.loser == None
                   && r.winner == if remote.updatedAtMs > local.updatedAtMs then remote else local)
      && (r.outcome == LocalWins ==> r.winner == local && r.loser == Some(remote)
                                     && IsTrue(rt, r.reason, local, remote, true, options))
      && (r.outcome == RemoteWins ==> r.winner == remote && r.loser == Some(local)
                                      && IsTrue(rt, r.reason, remote, local, false, options))
  {
    assert rt.compare(local.contentHash, remote.contentHash) < 0
      <==> rt.compare(remote.contentHash, local.contentHash) > 0;
    assert rt.compare(local.source, remote.source) < 0 <==> rt.compare(remote.source, local.source) > 0;
  }

  /** Strictly later in (updatedAtMs, contentHash). */
  predicate Beats(rt: Runtime, a: Form, b: Form) {
    || a.updatedAtMs > b.updatedAtMs
    || (a.updatedAtMs == b.updatedAtMs && rt.compare(a.contentHash, b.contentHash) > 0)
  }

  /** The left-biased maximum of two copies. */
  function Latest(rt: Runtime, a: Form, b: Form): Form {
    if Beats(rt, b, a) then b else a
  }

  ghost predicate LastWriteWins(options: Options) {
    options.policy.UpdatedAt? && options.prefer.None?
  }

  /** With verified hashes the whole cascade is the left-biased maximum. */
  lemma ResolveIsLatest(rt: Runtime, a: Form, b: Form, options: Options)
    requires Lawful(rt) && Verified(rt, a) && Verified(rt, b) && LastWriteWins(options)
    ensures ResolveConflict(rt, a, b, options).winner == Latest(rt, a, b)
  {
    assert rt.compare(a.contentHash, b.contentHash) < 0 <==> rt.compare(b.contentHash, a.contentHash) > 0;
  }

  lemma BeatsTransitive(rt: Runtime, a: Form, b: Form, c: Form)
    requires Lawful(rt) && Beats(rt, a, b) && Beats(rt, b, c)
    ensures Beats(rt, a, c)
  {
    if a.updatedAtMs == b.updatedAtMs == c.updatedAtMs {
      assert rt.compare(c.contentHash, b.contentHash) < 0 && rt.compare(b.contentHash, a.contentHash) < 0;
    }
  }

  lemma BeatsSplits(rt: Runtime, a: Form, b: Form, c: Form)
    requires Lawful(rt) && Beats(rt, a, c)
    ensures Beats(rt, a, b) || Beats(rt, b, c)
  {
    if a.updatedAtMs == b.updatedAtMs == c.updatedAtMs && !Beats(rt, a, b) {
      assert rt.compare(c.contentHash, a.contentHash) < 0;
      if a.contentHash != b.contentHash {
        assert rt.compare(a.contentHash, b.contentHash) < 0;
      }
    }
  }

  lemma LatestAssociative(rt: Runtime, a: Form, b: Form, c: Form)
    requires Lawful(rt)
    ensures Latest(rt, Latest(rt, a, b), c) == Latest(rt, a, Latest(rt, b, c))
  {
    if Beats(rt, c, b) && Beats(rt, b, a) {
      BeatsTransitive(rt, c, b, a);
    }
    if Beats(rt, c, a) {
      BeatsSplits(rt, c, b, a);
    }
  }

  /** Whatever the options, resolving the winner against the same remote copy changes nothing. */
  lemma ResolveIdempotent(rt: Runtime, local: Form, remote: Form, options: Options)
    ensures var w := ResolveConflict(rt, local, remote, options).winner;
      ResolveConflict(rt, w, remote, options).winner == w
  {
  }

  // --------------------------------------------------------- two sets

  /** The last copy of each id. */
  function LastById(forms: seq<Form>): (m: JsMap<Form>)
    ensures m.Valid() && Keyed(m.entries)
  {
    if forms == [] then Empty()
    else LastById(forms[..|forms| - 1]).Put(forms[|forms| - 1].id, forms[|forms| - 1])
  }

  /** Every form is stored under its own id. */
  ghost predicate Keyed(m: map<string, Form>) {
    forall id :: id in m ==> m[id].id == id
  }

  /** What the merge keeps for each id. */
  function MergedMap(rt: Runtime, local: map<string, Form>, remote: map<string, Form>, options: Options)
    : (m: map<string, Form>)
  {
    map id | id in local.Keys + remote.Keys ::
      if id !in remote then local[id]
      else if id !in local then remote[id]
      else ResolveConflict(rt, local[id], remote[id], options).winner
  }

  /** `forms` holds exactly the values of `m`, each once. */
  ghost predicate Lists(forms: seq<Form>, m: map<string, Form>) {
    && (forall i :: 0 <= i < |forms| ==> forms[i].id in m && m[forms[i].id] == forms[i])
    && (forall i, j :: 0 <= i < j < |forms| ==> forms[i].id != forms[j].id)
    && (forall id :: id in m ==> m[id] in forms)
  }

  predicate OutputBefore(rt: Runtime, a: Form, b: Form) {
    || a.updatedAtMs < b.updatedAtMs
    || (a.updatedAtMs == b.updatedAtMs
        && (|| rt.compare(a.id, b.id) < 0
            || (rt.compare(a.id, b.id) == 0 && rt.compare(a.contentHash, b.contentHash) < 0)))
  }

  /** The comparator of the final sort: updatedAtMs, id, contentHash. */
  function OutputOrder(rt: Runtime): (Form, Form) -> bool {
    (a: Form, b: Form) => OutputBefore(rt, a, b)
  }

  lemma OutputBeforeTransitive(rt: Runtime, x: Form, y: Form, z: Form)
    requires Lawful(rt) && OutputBefore(rt, x, y) && OutputBefore(rt, y, z)
    ensures OutputBefore(rt, x, z)
  {
    if x.updatedAtMs == y.updatedAtMs == z.updatedAtMs {
      assert rt.compare(x.id, y.id) < 0 && rt.compare(y.id, z.id) < 0 ==> rt.compare(x.id, z.id) < 0;
      if x.id == y.id == z.id {
        assert rt.compare(x.contentHash, y.contentHash) < 0 && rt.compare(y.contentHash, z.contentHash) < 0;
      }
    }
  }

  lemma OutputBeforeSplits(rt: Runtime, x: Form, y: Form, z: Form)
    requires Lawful(rt) && OutputBefore(rt, x, z)
    ensures OutputBefore(rt, x, y) || OutputBefore(rt, y, z)
  {
    if !OutputBefore(rt, x, y) && x.updatedAtMs == y.updatedAtMs == z.updatedAtMs {
      if x.id == y.id {
        if x.contentHash != y.contentHash {
          assert rt.compare(y.contentHash, x.contentHash) < 0;
        }
      } else {
        assert rt.compare(y.id, x.id) < 0;
        assert rt.compare(x.id, z.id) < 0 ==> rt.compare(y.id, z.id) < 0;
      }
    }
  }

  lemma OutputOrderIsStrictWeakOrder(rt: Runtime)
    requires Lawful(rt)
    ensures StrictWeakOrder(OutputOrder(rt))
  {
    var less := OutputOrder(rt);
    forall x, y, z | less(x, y) && less(y, z) ensures less(x, z) {
      OutputBeforeTransitive(rt, x, y, z);
    }
    forall x, y, z | less(x, z) ensures less(x, y) || less(y, z) {
      OutputBeforeSplits(rt, x, y, z);
    }
  }

  lemma ListsAreUntied(rt: Runtime, forms: seq<Form>, m: map<string, Form>)
    requires Lawful(rt) && Lists(forms, m)
    ensures Untied(multiset(forms), OutputOrder(rt))
  {
    forall x, y | x in multiset(forms) && y in multiset(forms) && x != y
      ensures OutputBefore(rt, x, y) || OutputBefore(rt, y, x)
    {
      assert x in forms && y in forms;
      assert x.id != y.id;
      assert rt.compare(x.id, y.id) != 0;
    }
  }

  lemma SameListing(a: seq<Form>, b: seq<Form>, m: map<string, Form>)
    requires Lists(a, m) && Lists(b, m)
    ensures multiset(a) == multiset(b)
  {
    forall x ensures multiset(a)[x] == multiset(b)[x] {
      ListedOnce(a, x);
      ListedOnce(b, x);
      assert x in a ==> x.id in m && m[x.id] == x;
      assert x in b ==> x.id in m && m[x.id] == x;
    }
  }

  /** The sorted listing of a map is unique. */
  lemma SortedListingUnique(rt: Runtime, a: seq<Form>, b: seq<Form>, m: map<string, Form>)
    requires Lawful(rt) && Lists(a, m) && Lists(b, m)
    requires Sorted(a, OutputOrder(rt)) && Sorted(b, OutputOrder(rt))
    ensures a == b
  {
    SameListing(a, b, m);
    ListsAreUntied(rt, a, m);
    SortedUnique(a, b, OutputOrder(rt));
  }

  lemma ReorderedListing(a: seq<Form>, b: seq<Form>, m: map<string, Form>)
    requires Lists(a, m) && multiset(a) == multiset(b)
    ensures Lists(b, m)
  {
    forall i | 0 <= i < |b| ensures b[i].id in m && m[b[i].id] == b[i] {
      assert b[i] in multiset(a);
      assert b[i] in a;
    }
    forall i, j | 0 <= i < j < |b| ensures b[i].id != b[j].id {
      if b[i].id == b[j].id {
        assert b[i] in multiset(a) && b[j] in multiset(a);
        assert b[i] in a && b[j] in a;
        RepeatedElement(b, i, j);
        ListedOnce(a, b[i]);
      }
    }
    forall id | id in m ensures m[id] in b {
      assert m[id] in multiset(a);
      assert m[id] in multiset(b);
    }
  }

  /** The conflict records, in the order the local ids came. */
  function ConflictsOf(rt: Runtime, ids: seq<string>, local: map<string, Form>,
                       remote: map<string, Form>, options: Options): seq<ConflictRecord>
    requires forall id :: id in ids ==> id in local
  {
    if ids == [] then []
    else
      var id := ids[|ids| - 1];
      var before := ConflictsOf(rt, ids[..|ids| - 1], local, remote, options);
      if id in remote then before + [ResolveConflict(rt, local[id], remote[id], options)] else before
  }

  lemma ConflictsOneMore(rt: Runtime, ids: seq<string>, i: nat, local: map<string, Form>, remote: map<string, Form>,
                         options: Options)
    requires i < |ids| && forall id :: id in ids ==> id in local
    ensures ConflictsOf(rt, ids[..i + 1], local, remote, options)
      == ConflictsOf(rt, ids[..i], local, remote, options)
         + if ids[i] in remote then [ResolveConflict(rt, local[ids[i]], remote[ids[i]], options)] else []
  {
    assert ids[..i + 1][..i] == ids[..i];
  }

  /** The contract of a merge: the sorted listing of the merged map. */
  ghost predicate IsMerge(rt: Runtime, localForms: seq<Form>, remoteForms: seq<Form>,
                          options: Options, merged: seq<Form>) {
    && Lists(merged, MergedMap(rt, LastById(localForms).entries, LastById(remoteForms).entries, options))
    && Sorted(merged, OutputOrder(rt))
  }

  /** The values of `m` under `ids`, in that order. */
  function Picks(m: map<string, Form>, ids: seq<string>): seq<Form> {
    if ids == [] then []
    else
      var id := ids[|ids| - 1];
      Picks(m, ids[..|ids| - 1]) + if id in m then [m[id]] else []
  }

  lemma PicksOneMore(m: map<string, Form>, ids: seq<string>, i: nat)
    requires i < |ids|
    ensures Picks(m, ids[..i + 1]) == Picks(m, ids[..i]) + if ids[i] in m then [m[ids[i]]] else []
  {
    assert ids[..i + 1][..i] == ids[..i];
  }

  lemma {:induction false} PicksComeFrom(m: map<string, Form>, ids: seq<string>)
    requires Keyed(m)
    ensures forall x :: x in Picks(m, ids) ==> x.id in ids && x.id in m && m[x.id] == x
  {
    if ids != [] {
      PicksComeFrom(m, ids[..|ids| - 1]);
    }
  }

  lemma {:induction false} PicksCover(m: map<string, Form>, ids: seq<string>, id: string)
    requires id in ids && id in m
    ensures m[id] in Picks(m, ids)
  {
    if ids[|ids| - 1] != id {
      assert id in ids[..|ids| - 1];
      PicksCover(m, ids[..|ids| - 1], id);
    }
  }

  ghost predicate DistinctIds(forms: seq<Form>) {
    forall i, j :: 0 <= i < j < |forms| ==> forms[i].id != forms[j].id
  }

  lemma {:induction false} PicksDistinct(m: map<string, Form>, ids: seq<string>)
    requires Keyed(m)
    requires forall i, j :: 0 <= i < j < |ids| ==> ids[i] != ids[j]
    ensures DistinctIds(Picks(m, ids))
  {
    if ids != [] {
      var init := ids[..|ids| - 1];
      PicksDistinct(m, init);
      PicksComeFrom(m, init);
    }
  }

  lemma PicksList(m: map<string, Form>, a: seq<Form>, b: seq<Form>, local: map<string, Form>)
    requires Keyed(m) && DistinctIds(a) && DistinctIds(b)
    requires forall x :: x in a ==> x.id in local && x.id in m && m[x.id] == x
    requires forall x :: x in b ==> x.id !in local && x.id in m && m[x.id] == x
    requires forall id :: id in m ==> m[id] in a || m[id] in b
    ensures Lists(a + b, m)
  {
  }

  lemma MergedEntry(rt: Runtime, local: map<string, Form>, remote: map<string, Form>, options: Options, id: string)
    requires id in local || id in remote
    ensures var m := MergedMap(rt, local, remote, options);
      id in m
      && m[id] == (if id !in remote then local[id] else if id !in local then remote[id]
                   else ResolveConflict(rt, local[id], remote[id], options).winner)
  {
  }

  method MapById(forms: seq<Form>) returns (m: JsMap<Form>)
    ensures m == LastById(forms)
  {
    m := Empty();
    for i := 0 to |forms|
      invariant m == LastById(forms[..i])
    {
      m := m.Put(forms[i].id, forms[i]);
      assert forms[..i + 1][..i] == forms[..i];
    }
    assert forms[..|forms|] == forms;
  }

  /** By update time and then by id. */
  ghost predicate IsInOutputOrder(rt: Runtime, merged: seq<Form>) {
    forall i, j :: 0 <= i < j < |merged| ==>
      || merged[i].updatedAtMs < merged[j].updatedAtMs
      || (merged[i].updatedAtMs == merged[j].updatedAtMs && rt.compare(merged[i].id, merged[j].id) < 0)
  }

  lemma MergeIsInOutputOrder(rt: Runtime, merged: seq<Form>, m: map<string, Form>)
    requires Lawful(rt) && Lists(merged, m) && Sorted(merged, OutputOrder(rt))
    ensures IsInOutputOrder(rt, merged)
  {
    forall i, j | 0 <= i < j < |merged|
      ensures merged[i].updatedAtMs < merged[j].updatedAtMs
        || (merged[i].updatedAtMs == merged[j].updatedAtMs && rt.compare(merged[i].id, merged[j].id) < 0)
    {
      assert !OutputBefore(rt, merged[j], merged[i]);
      assert merged[i].id != merged[j].id;
      assert rt.compare(merged[i].id, merged[j].id) != 0;
      assert rt.compare(merged[j].id, merged[i].id) < 0 <==> rt.compare(merged[i].id, merged[j].id) > 0;
    }
  }

  // ---------------------------------------- the merge in terms of its lists

  ghost predicate HasId(forms: seq<Form>, id: string) {
    exists i :: 0 <= i < |forms| && forms[i].id == id
  }

  /** No later form has the id of the `i`-th. */
  ghost predicate IsLast(forms: seq<Form>, i: nat) {
    i < |forms| && forall j :: i < j < |forms| ==> forms[j].id != forms[i].id
  }

  /** The last local and the last remote copy of one id. */
  ghost predicate AreRivals(local: seq<Form>, remote: seq<Form>, i: nat, j: nat) {
    IsLast(local, i) && IsLast(remote, j) && local[i].id == remote[j].id
  }

  /** How many forms precede the first one with this id. */
  ghost function FirstSeen(forms: seq<Form>, id: string): nat {
    if forms == [] || forms[0].id == id then 0 else 1 + FirstSeen(forms[1..], id)
  }

  /** Different ids, in the order in which they first occur in `forms`. */
  ghost predicate AsSeen(forms: seq<Form>, ids: seq<string>) {
    forall a, b :: 0 <= a < b < |ids| ==> FirstSeen(forms, ids[a]) < FirstSeen(forms, ids[b])
  }

  ghost predicate RecordsAsSeen(forms: seq<Form>, records: seq<ConflictRecord>) {
    forall a, b :: 0 <= a < b < |records| ==> FirstSeen(forms, records[a].id) < FirstSeen(forms, records[b].id)
  }

  /** Under every id: the only copy there is, or the winner of the last local and the last remote one. */
  ghost predicate KeepsWinners(rt: Runtime, local: seq<Form>, remote: seq<Form>, options: Options, merged: seq<Form>) {
    && DistinctIds(merged)
    && (forall tf :: tf in merged ==> HasId(local, tf.id) || HasId(remote, tf.id))
    && (forall i: nat :: IsLast(local, i) && !HasId(remote, local[i].id) ==> local[i] in merged)
    && (forall j: nat :: IsLast(remote, j) && !HasId(local, remote[j].id) ==> remote[j] in merged)
    && forall i: nat, j: nat :: AreRivals(local, remote, i, j) ==>
         ResolveConflict(rt, local[i], remote[j], options).winner in merged
  }

  ghost predicate ResolvedBetween(rt: Runtime, local: seq<Form>, remote: seq<Form>, options: Options,
                                  record: ConflictRecord) {
    exists i: nat, j: nat ::
      AreRivals(local, remote, i, j) && record == ResolveConflict(rt, local[i], remote[j], options)
  }

  /** One record for every id that both sides have, in the order in which the ids first occur locally. */
  ghost predicate RecordsConflicts(rt: Runtime, local: seq<Form>, remote: seq<Form>, options: Options,
                                   conflicts: seq<ConflictRecord>) {
    && (forall i: nat, j: nat :: AreRivals(local, remote, i, j) ==>
          ResolveConflict(rt, local[i], remote[j], options) in conflicts)
    && (forall record :: record in conflicts ==> ResolvedBetween(rt, local, remote, options, record))
    && RecordsAsSeen(local, conflicts)
  }

  /** The map by id holds the last copy of every id. */
  lemma {:induction false} LastByIdExactly(forms: seq<Form>, i: nat)
    requires IsLast(forms, i)
    ensures forms[i].id in LastById(forms).entries && LastById(forms).entries[forms[i].id] == forms[i]
  {
    var n := |forms| - 1;
    if i < n {
      LastByIdExactly(forms[..n], i);
    }
  }

  lemma {:induction false} LastOfId(forms: seq<Form>, id: string) returns (i: nat)
    requires HasId(forms, id)
    ensures IsLast(forms, i) && forms[i].id == id
  {
    var n := |forms| - 1;
    if forms[n].id == id {
      i := n;
    } else {
      i := LastOfId(forms[..n], id);
    }
  }

  lemma HasIdExactly(forms: seq<Form>, id: string)
    ensures HasId(forms, id) <==> id in LastById(forms).entries
  {
    if HasId(forms, id) {
      var i := LastOfId(forms, id);
      LastByIdExactly(forms, i);
    }
    if id in LastById(forms).entries {
      LastByIdComesFrom(forms, id);
      var i :| 0 <= i < |forms| && forms[i] == LastById(forms).entries[id];
    }
  }

  lemma MergeKeepsWinners(rt: Runtime, localForms: seq<Form>, remoteForms: seq<Form>, options: Options,
                          merged: seq<Form>)
    requires IsMerge(rt, localForms, remoteForms, options, merged)
    ensures KeepsWinners(rt, localForms, remoteForms, options, merged)
  {
    var local, remote := LastById(localForms).entries, LastById(remoteForms).entries;
    forall tf | tf in merged ensures HasId(localForms, tf.id) || HasId(remoteForms, tf.id) {
      HasIdExactly(localForms, tf.id);
      HasIdExactly(remoteForms, tf.id);
    }
    forall i: nat | IsLast(localForms, i) && !HasId(remoteForms, localForms[i].id) ensures localForms[i] in merged {
      LastByIdExactly(localForms, i);
      HasIdExactly(remoteForms, localForms[i].id);
      MergedEntry(rt, local, remote, options, localForms[i].id);
    }
    forall j: nat | IsLast(remoteForms, j) && !HasId(localForms, remoteForms[j].id) ensures remoteForms[j] in merged {
      LastByIdExactly(remoteForms, j);
      HasIdExactly(localForms, remoteForms[j].id);
      MergedEntry(rt, local, remote, options, remoteForms[j].id);
    }
    forall i: nat, j: nat | AreRivals(localForms, remoteForms, i, j)
      ensures ResolveConflict(rt, localForms[i], remoteForms[j], options).winner in merged
    {
      LastByIdExactly(localForms, i);
      LastByIdExactly(remoteForms, j);
      MergedEntry(rt, local, remote, options, localForms[i].id);
    }
  }

  lemma {:induction false} FirstSeenSnoc(forms: seq<Form>, tf: Form, id: string)
    ensures HasId(forms, id) ==> FirstSeen(forms + [tf], id) == FirstSeen(forms, id) < |forms|
    ensures !HasId(forms, id) ==> FirstSeen(forms + [tf], id) >= |forms|
  {
    if forms != [] && forms[0].id != id {
      FirstSeenSnoc(forms[1..], tf, id);
      assert (forms + [tf])[1..] == forms[1..] + [tf];
      if HasId(forms, id) {
        var i :| 0 <= i < |forms| && forms[i].id == id;
        assert forms[1..][i - 1].id == id;
      }
      if HasId(forms[1..], id) {
        var i :| 0 <= i < |forms| - 1 && forms[1..][i].id == id;
        assert forms[i + 1].id == id;
      }
    }
  }

  /** The ids of the map are listed as they first occur. */
  lemma {:induction false} KeysAsSeen(forms: seq<Form>)
    ensures AsSeen(forms, LastById(forms).keys)
  {
    if forms != [] {
      var n := |forms| - 1;
      var init, keys := forms[..n], LastById(forms).keys;
      KeysAsSeen(init);
      assert forms == init + [forms[n]];
      forall a, b | 0 <= a < b < |keys| ensures FirstSeen(forms, keys[a]) < FirstSeen(forms, keys[b]) {
        FirstSeenSnoc(init, forms[n], keys[a]);
        FirstSeenSnoc(init, forms[n], keys[b]);
        HasIdExactly(init, keys[a]);
        HasIdExactly(init, keys[b]);
      }
    }
  }

  lemma {:induction false} ConflictsComeFrom(rt: Runtime, ids: seq<string>, local: map<string, Form>,
                                             remote: map<string, Form>, options: Options, record: ConflictRecord)
    requires Keyed(local) && forall id :: id in ids ==> id in local
    ensures record in ConflictsOf(rt, ids, local, remote, options)
      <==> record.id in ids && record.id in remote
           && record == ResolveConflict(rt, local[record.id], remote[record.id], options)
  {
    if ids != [] {
      var n := |ids| - 1;
      ConflictsComeFrom(rt, ids[..n], local, remote, options, record);
      assert ids == ids[..n] + [ids[n]];
    }
  }

  lemma {:induction false} ConflictsAsSeen(rt: Runtime, ids: seq<string>, local: map<string, Form>,
                                           remote: map<string, Form>, options: Options, forms: seq<Form>)
    requires Keyed(local) && forall id :: id in ids ==> id in local
    requires AsSeen(forms, ids)
    ensures RecordsAsSeen(forms, ConflictsOf(rt, ids, local, remote, options))
  {
    if ids != [] {
      var n := |ids| - 1;
      var before := ConflictsOf(rt, ids[..n], local, remote, options);
      ConflictsAsSeen(rt, ids[..n], local, remote, options, forms);
      forall record | record in before ensures FirstSeen(forms, record.id) < FirstSeen(forms, ids[n]) {
        ConflictsComeFrom(rt, ids[..n], local, remote, options, record);
        var a :| 0 <= a < n && ids[..n][a] == record.id;
        assert ids[a] == record.id;
      }
      if ids[n] in remote {
        OneMoreSeen(forms, before, ResolveConflict(rt, local[ids[n]], remote[ids[n]], options));
      }
    }
  }

  lemma OneMoreSeen(forms: seq<Form>, before: seq<ConflictRecord>, record: ConflictRecord)
    requires RecordsAsSeen(forms, before)
    requires forall r :: r in before ==> FirstSeen(forms, r.id) < FirstSeen(forms, record.id)
    ensures RecordsAsSeen(forms, before + [record])
  {
    assert forall a :: 0 <= a < |before| ==> before[a] in before;
  }

  lemma RecordNamesId(rt: Runtime, x: Form, y: Form, options: Options)
    ensures ResolveConflict(rt, x, y, options).id == x.id
  {
  }

  lemma RivalsAreRecorded(rt: Runtime, l: JsMap<Form>, remote: map<string, Form>, options: Options, x: Form, y: Form,
                          record: ConflictRecord)
    requires l.Valid() && Keyed(l.entries) && x.id in l.entries && l.entries[x.id] == x
    requires x.id in remote && remote[x.id] == y
    requires record == ResolveConflict(rt, x, y, options) && record.id == x.id
    ensures record in ConflictsOf(rt, l.keys, l.entries, remote, options)
  {
    ConflictsComeFrom(rt, l.keys, l.entries, remote, options, record);
  }

  lemma MergeRecordsConflicts(rt: Runtime, localForms: seq<Form>, remoteForms: seq<Form>, options: Options)
    ensures RecordsConflicts(rt, localForms, remoteForms, options,
                             ConflictsOf(rt, LastById(localForms).keys, LastById(localForms).entries,
                                         LastById(remoteForms).entries, options))
  {
    var l, remote := LastById(localForms), LastById(remoteForms).entries;
    var conflicts := ConflictsOf(rt, l.keys, l.entries, remote, options);
    KeysAsSeen(localForms);
    ConflictsAsSeen(rt, l.keys, l.entries, remote, options, localForms);
    forall i: nat, j: nat | AreRivals(localForms, remoteForms, i, j)
      ensures ResolveConflict(rt, localForms[i], remoteForms[j], options) in conflicts
    {
      LastByIdExactly(localForms, i);
      LastByIdExactly(remoteForms, j);
      RecordNamesId(rt, localForms[i], remoteForms[j], options);
      RivalsAreRecorded(rt, l, remote, options, localForms[i], remoteForms[j],
                        ResolveConflict(rt, localForms[i], remoteForms[j], options));
    }
    forall record | record in conflicts ensures ResolvedBetween(rt, localForms, remoteForms, options, record) {
      ConflictIsResolved(rt, localForms, remoteForms, options, record);
    }
  }

  lemma ConflictIsResolved(rt: Runtime, localForms: seq<Form>, remoteForms: seq<Form>, options: Options,
                           record: ConflictRecord)
    requires record in ConflictsOf(rt, LastById(localForms).keys, LastById(localForms).entries,
                                   LastById(remoteForms).entries, options)
    ensures ResolvedBetween(rt, localForms, remoteForms, options, record)
  {
    var l := LastById(localForms);
    ConflictsComeFrom(rt, l.keys, l.entries, LastById(remoteForms).entries, options, record);
    HasIdExactly(localForms, record.id);
    HasIdExactly(remoteForms, record.id);
    var i := LastOfId(localForms, record.id);
    var j := LastOfId(remoteForms, record.id);
    LastByIdExactly(localForms, i);
    LastByIdExactly(remoteForms, j);
    assert AreRivals(localForms, remoteForms, i, j);
  }

  method MergeThoughtformSets(rt: Runtime, localForms: seq<Form>, remoteForms: seq<Form>, options: Options)
    returns (merged: seq<Form>, conflicts: seq<ConflictRecord>)
    requires Lawful(rt)
    ensures IsMerge(rt, localForms, remoteForms, options, merged)
    ensures IsInOutputOrder(rt, merged) && KeepsWinners(rt, localForms, remoteForms, options, merged)
    ensures RecordsConflicts(rt, localForms, remoteForms, options, conflicts)
  {
    MergeRecordsConflicts(rt, localForms, remoteForms, options);
    var localMap := MapById(localForms);
    var remoteMap := MapById(remoteForms);
    merged, conflicts := ResolveLocal(rt, localMap, remoteMap, options);
    var added := AddRemoteOnly(localMap, remoteMap);
    LoopsList(rt, localMap, remoteMap, options);
    merged := SortForOutput(rt, merged + added, MergedMap(rt, localMap.entries, remoteMap.entries, options));
    MergeIsInOutputOrder(rt, merged, MergedMap(rt, localMap.entries, remoteMap.entries, options));
    MergeKeepsWinners(rt, localForms, remoteForms, options, merged);
  }

  lemma LoopsList(rt: Runtime, local: JsMap<Form>, remote: JsMap<Form>, options: Options)
    requires local.Valid() && remote.Valid() && Keyed(local.entries) && Keyed(remote.entries)
    ensures var goal := MergedMap(rt, local.entries, remote.entries, options);
      Lists(Picks(goal, local.keys) + Picks(remote.entries - local.entries.Keys, remote.keys), goal)
  {
    var goal := MergedMap(rt, local.entries, remote.entries, options);
    var only := remote.entries - local.entries.Keys;
    MergedMapKeyed(rt, local.entries, remote.entries, options);
    PicksComeFrom(goal, local.keys);
    PicksComeFrom(only, remote.keys);
    PicksDistinct(goal, local.keys);
    PicksDistinct(only, remote.keys);
    forall id | id in goal ensures goal[id] in Picks(goal, local.keys) || goal[id] in Picks(only, remote.keys) {
      if id in local.entries {
        PicksCover(goal, local.keys, id);
      } else {
        PicksCover(only, remote.keys, id);
      }
    }
    PicksList(goal, Picks(goal, local.keys), Picks(only, remote.keys), local.entries);
  }

  lemma MergedMapKeyed(rt: Runtime, local: map<string, Form>, remote: map<string, Form>, options: Options)
    requires Keyed(local) && Keyed(remote)
    ensures Keyed(MergedMap(rt, local, remote, options))
  {
  }

  method SortForOutput(rt: Runtime, unsorted: seq<Form>, ghost goal: map<string, Form>) returns (merged: seq<Form>)
    requires Lawful(rt) && Lists(unsorted, goal)
    ensures Lists(merged, goal) && Sorted(merged, OutputOrder(rt))
  {
    OutputOrderIsStrictWeakOrder(rt);
    SortSorts(unsorted, OutputOrder(rt));
    SortKeepsElements(unsorted, OutputOrder(rt));
    merged := Sort(unsorted, OutputOrder(rt));
    ReorderedListing(unsorted, merged, goal);
  }

  /** The loop over the local forms. */
  method ResolveLocal(rt: Runtime, localMap: JsMap<Form>, remoteMap: JsMap<Form>, options: Options)
    returns (merged: seq<Form>, conflicts: seq<ConflictRecord>)
    requires localMap.Valid()
    ensures merged == Picks(MergedMap(rt, localMap.entries, remoteMap.entries, options), localMap.keys)
    ensures conflicts == ConflictsOf(rt, localMap.keys, localMap.entries, remoteMap.entries, options)
  {
    var ids := localMap.keys;
    ghost var goal := MergedMap(rt, localMap.entries, remoteMap.entries, options);
    merged, conflicts := [], [];
    for i := 0 to |ids|
      invariant merged == Picks(goal, ids[..i])
      invariant conflicts == ConflictsOf(rt, ids[..i], localMap.entries, remoteMap.entries, options)
    {
      assert ids[i] in localMap.entries;
      PicksOneMore(goal, ids, i);
      ConflictsOneMore(rt, ids, i, localMap.entries, remoteMap.entries, options);
      MergedEntry(rt, localMap.entries, remoteMap.entries, options, ids[i]);
      if !remoteMap.Has(ids[i]) {
        merged := merged + [localMap.entries[ids[i]]];
      } else {
        var record := ResolveConflict(rt, localMap.entries[ids[i]], remoteMap.entries[ids[i]], options);
        merged := merged + [record.winner];
        conflicts := conflicts + [record];
      }
    }
    assert ids[..|ids|] == ids;
  }

  /** The loop over the remote forms. */
  method AddRemoteOnly(localMap: JsMap<Form>, remoteMap: JsMap<Form>) returns (added: seq<Form>)
    requires remoteMap.Valid()
    ensures added == Picks(remoteMap.entries - localMap.entries.Keys, remoteMap.keys)
  {
    var ids := remoteMap.keys;
    added := [];
    for i := 0 to |ids|
      invariant added == Picks(remoteMap.entries - localMap.entries.Keys, ids[..i])
    {
      PicksOneMore(remoteMap.entries - localMap.entries.Keys, ids, i);
      assert ids[i] in remoteMap.entries;
      if !localMap.Has(ids[i]) {
        added := added + [remoteMap.entries[ids[i]]];
      }
    }
    assert ids[..|ids|] == ids;
  }

  // ----------------------------------------------- laws of the merge

  lemma {:induction false} LastByIdCovers(forms: seq<Form>, i: nat)
    requires i < |forms|
    ensures forms[i].id in LastById(forms).entries
  {
    if i < |forms| - 1 {
      LastByIdCovers(forms[..|forms| - 1], i);
    }
  }

  lemma {:induction false} LastByIdComesFrom(forms: seq<Form>, id: string)
    requires id in LastById(forms).entries
    ensures LastById(forms).entries[id] in forms && LastById(forms).entries[id].id == id
  {
    if forms[|forms| - 1].id != id {
      LastByIdComesFrom(forms[..|forms| - 1], id);
    }
  }

  /** Reading a listing back by id gives the map it lists. */
  lemma LastByIdOfListing(forms: seq<Form>, m: map<string, Form>)
    requires Lists(forms, m) && Keyed(m)
    ensures LastById(forms).entries == m
  {
    var r := LastById(forms).entries;
    forall id | id in m ensures id in r {
      assert m[id] in forms;
      var i :| 0 <= i < |forms| && forms[i] == m[id];
      LastByIdCovers(forms, i);
    }
    forall id | id in r ensures id in m && r[id] == m[id] {
      LastByIdComesFrom(forms, id);
    }
  }

  /** A list without repeated ids is a listing of its own map. */
  lemma DistinctFormsList(forms: seq<Form>)
    requires DistinctIds(forms)
    ensures Lists(forms, LastById(forms).entries)
  {
    var m := LastById(forms).entries;
    forall i | 0 <= i < |forms| ensures forms[i].id in m && m[forms[i].id] == forms[i] {
      DistinctFormAt(forms, i);
    }
    forall id | id in m ensures m[id] in forms {
      LastByIdComesFrom(forms, id);
    }
  }

  lemma DistinctFormAt(forms: seq<Form>, i: nat)
    requires DistinctIds(forms) && i < |forms|
    ensures forms[i].id in LastById(forms).entries && LastById(forms).entries[forms[i].id] == forms[i]
  {
    LastByIdCovers(forms, i);
    LastByIdComesFrom(forms, forms[i].id);
    var j :| 0 <= j < |forms| && forms[j] == LastById(forms).entries[forms[i].id];
  }

  lemma ReorderedFormsMap(a: seq<Form>, b: seq<Form>)
    requires DistinctIds(a) && multiset(a) == multiset(b)
    ensures LastById(a).entries == LastById(b).entries
  {
    DistinctFormsList(a);
    ReorderedListing(a, b, LastById(a).entries);
    LastByIdOfListing(b, LastById(a).entries);
  }

  /** The order of either input list does not matter. */
  lemma MergeIgnoresInputOrder(rt: Runtime, local: seq<Form>, local': seq<Form>, remote: seq<Form>,
                               remote': seq<Form>, options: Options, merged: seq<Form>, merged': seq<Form>)
    requires Lawful(rt) && DistinctIds(local) && DistinctIds(remote)
    requires multiset(local) == multiset(local') && multiset(remote) == multiset(remote')
    requires IsMerge(rt, local, remote, options, merged) && IsMerge(rt, local', remote', options, merged')
    ensures merged == merged'
  {
    ReorderedFormsMap(local, local');
    ReorderedFormsMap(remote, remote');
    SortedListingUnique(rt, merged, merged',
      MergedMap(rt, LastById(local).entries, LastById(remote).entries, options));
  }

  lemma MergedMapIdempotent(rt: Runtime, l: map<string, Form>, r: map<string, Form>, options: Options)
    ensures var m := MergedMap(rt, l, r, options); MergedMap(rt, m, r, options) == m
  {
    var m := MergedMap(rt, l, r, options);
    forall id | id in m ensures MergedMap(rt, m, r, options)[id] == m[id] {
      MergedEntry(rt, l, r, options, id);
      MergedEntry(rt, m, r, options, id);
      if id in r {
        ResolveIdempotent(rt, if id in l then l[id] else r[id], r[id], options);
      }
    }
  }

  /** Merging a merge again with the same remote forms changes nothing, whatever the options. */
  lemma MergeIsIdempotent(rt: Runtime, local: seq<Form>, remote: seq<Form>, options: Options,
                          merged: seq<Form>, again: seq<Form>)
    requires Lawful(rt)
    requires IsMerge(rt, local, remote, options, merged) && IsMerge(rt, merged, remote, options, again)
    ensures again == merged
  {
    var l, r := LastById(local).entries, LastById(remote).entries;
    var m := MergedMap(rt, l, r, options);
    MergedMapKeyed(rt, l, r, options);
    LastByIdOfListing(merged, m);
    MergedMapIdempotent(rt, l, r, options);
    SortedListingUnique(rt, again, merged, m);
  }
}
