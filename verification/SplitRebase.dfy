/**
 Rebasing in two steps under any options. Each step resolves against what the step before
 kept, with the policy; one rebase first collapses all copies of an id by time. Options that
 put one side above the time order can tell the two apart.
 */
module SplitRebase {
  import opened Wrappers
  import opened Ordering
  import opened Conflict
  import opened Rebase

  // ------------------------------------------------ when three copies agree

  /** The options let one side win against the time order. */
  predicate Favours(options: Options, a: Form, b: Form) {
    && a.contentHash != b.contentHash
    && (|| !options.policy.UpdatedAt?
        || (options.prefer.Some?
            && Distance(a.updatedAtMs, b.updatedAtMs) <= options.skewWindowMs.GetOr(DEFAULT_SKEW_WINDOW_MS)))
  }

  /** And that side is the local one. */
  predicate FavoursLocal(options: Options) {
    options.policy.PreferLocal? || (options.policy.UpdatedAt? && options.prefer == Some(Local))
  }

  function Winner(rt: Runtime, a: Form, b: Form, options: Options): Form {
    ResolveConflict(rt, a, b, options).winner
  }

  /** With verified hashes a favoured side wins, and otherwise the latest. */
  lemma WinnerIs(rt: Runtime, a: Form, b: Form, options: Options)
    requires Lawful(rt) && Verified(rt, a) && Verified(rt, b)
    ensures Winner(rt, a, b, options)
      == if Favours(options, a, b) then (if FavoursLocal(options) then a else b) else Latest(rt, a, b)
  {
    assert rt.compare(a.contentHash, b.contentHash) < 0 <==> rt.compare(b.contentHash, a.contentHash) > 0;
  }

  /** A local copy `l`, an earlier remote copy `p` and a later one `q`: does the split not matter? */
  predicate ThreeAgree(rt: Runtime, l: Form, p: Form, q: Form, options: Options) {
    if FavoursLocal(options) then
      if Favours(options, l, p) then Beats(rt, q, p) || Favours(options, l, q) || !Beats(rt, q, l)
      else !(Beats(rt, q, p) && Beats(rt, p, l)) || !(Favours(options, l, q) || Favours(options, p, q))
    else if Beats(rt, q, p) then
      !Favours(options, l, p) || Favours(options, l, q) || Beats(rt, q, l) || q == l
    else
      !Favours(options, if Favours(options, l, p) then p else Latest(rt, l, p), q)
  }

  /** Without a local copy: unless a side is favoured that is not the later one. */
  predicate TwoAgree(rt: Runtime, p: Form, q: Form, options: Options) {
    !Favours(options, p, q) || (FavoursLocal(options) <==> !Beats(rt, q, p))
  }

  lemma TwoAgreeExactly(rt: Runtime, p: Form, q: Form, options: Options)
    requires Lawful(rt) && Verified(rt, p) && Verified(rt, q)
    ensures Winner(rt, p, q, options) == Latest(rt, p, q) <==> TwoAgree(rt, p, q, options)
  {
    WinnerIs(rt, p, q, options);
  }

  lemma ThreeAgreeExactly(rt: Runtime, l: Form, p: Form, q: Form, options: Options)
    requires Lawful(rt) && Verified(rt, l) && Verified(rt, p) && Verified(rt, q)
    ensures Winner(rt, Winner(rt, l, p, options), q, options) == Winner(rt, l, Latest(rt, p, q), options)
      <==> ThreeAgree(rt, l, p, q, options)
  {
    WinnerIs(rt, l, p, options);
    WinnerIs(rt, l, q, options);
    WinnerIs(rt, p, q, options);
    LatestAssociative(rt, l, p, q);
    BeatsFacts(rt, l, p, q);
  }

  /** `Beats` is a strict order in which forms that do not beat one another have one hash. */
  lemma BeatsFacts(rt: Runtime, l: Form, p: Form, q: Form)
    requires Lawful(rt)
    ensures Beats(rt, q, p) && Beats(rt, p, l) ==> Beats(rt, q, l)
    ensures Beats(rt, q, l) ==> Beats(rt, q, p) || Beats(rt, p, l)
    ensures !Beats(rt, l, l) && !Beats(rt, p, p) && !Beats(rt, q, q)
    ensures !(Beats(rt, q, p) && Beats(rt, p, q)) && !(Beats(rt, p, l) && Beats(rt, l, p))
    ensures !(Beats(rt, q, l) && Beats(rt, l, q))
  {
    if Beats(rt, q, p) && Beats(rt, p, l) {
      BeatsTransitive(rt, q, p, l);
    }
    if Beats(rt, q, l) {
      BeatsSplits(rt, q, p, l);
    }
    Antisymmetric(rt, q, p);
    Antisymmetric(rt, p, l);
    Antisymmetric(rt, q, l);
    Antisymmetric(rt, l, l);
    Antisymmetric(rt, p, p);
    Antisymmetric(rt, q, q);
  }

  lemma Antisymmetric(rt: Runtime, a: Form, b: Form)
    requires Lawful(rt)
    ensures !(Beats(rt, a, b) && Beats(rt, b, a))
  {
    assert rt.compare(a.contentHash, b.contentHash) < 0 <==> rt.compare(b.contentHash, a.contentHash) > 0;
  }

  // ---------------------------------------------------- what a rebase keeps

  /** Under an id: the local copy against the one the delta holds. */
  function Kept(rt: Runtime, local: Option<Form>, remote: Option<Form>, options: Options): Option<Form> {
    if remote.None? then local
    else if local.None? then remote
    else Some(Winner(rt, local.value, remote.value, options))
  }

  ghost predicate Keeps(rt: Runtime, local: seq<Form>, forms: seq<Form>, options: Options, merged: seq<Form>) {
    forall id :: Entry(LastById(merged).entries, id)
              == Kept(rt, Entry(LastById(local).entries, id), LatestOf(rt, forms, id), options)
  }

  lemma RebaseKeeps(rt: Runtime, local: seq<Form>, forms: seq<Form>, options: Options, merged: seq<Form>)
    requires Lawful(rt) && AllVerified(rt, forms)
    requires IsMerge(rt, local, Collect(rt, forms, options).Values(), options, merged)
    ensures Keeps(rt, local, forms, options, merged)
  {
    var l, d := LastById(local).entries, Collect(rt, forms, options).entries;
    DeltaListing(rt, forms, options);
    MergedMapKeyed(rt, l, d, options);
    LastByIdOfListing(merged, MergedMap(rt, l, d, options));
    forall id ensures Entry(LastById(merged).entries, id) == Kept(rt, Entry(l, id), LatestOf(rt, forms, id), options) {
      CollectIsLatest(rt, forms, options, id);
      if id in l || id in d {
        MergedEntry(rt, l, d, options, id);
      }
    }
  }

  // ------------------------------------------------- two steps against one

  /** The local copy of an id, its earlier and its later remote copies. */
  predicate SplitAgrees(rt: Runtime, l: Option<Form>, p: Option<Form>, q: Option<Form>, options: Options) {
    p.Some? && q.Some? ==>
      if l.Some? then ThreeAgree(rt, l.value, p.value, q.value, options)
      else TwoAgree(rt, p.value, q.value, options)
  }

  lemma SplitAgreesAt(rt: Runtime, l: Option<Form>, p: Option<Form>, q: Option<Form>, options: Options)
    requires Lawful(rt) && (l.Some? ==> Verified(rt, l.value))
    requires (p.Some? ==> Verified(rt, p.value)) && (q.Some? ==> Verified(rt, q.value))
    ensures Kept(rt, Kept(rt, l, p, options), q, options) == Kept(rt, l, Combine(rt, p, q), options)
      <==> SplitAgrees(rt, l, p, q, options)
  {
    if p.Some? && q.Some? {
      if l.Some? {
        ThreeAgreeExactly(rt, l.value, p.value, q.value, options);
      } else {
        TwoAgreeExactly(rt, p.value, q.value, options);
      }
    }
  }

  ghost predicate SplitAgreesFor(rt: Runtime, local: seq<Form>, p: seq<Form>, q: seq<Form>, options: Options,
                                 id: string) {
    SplitAgrees(rt, Entry(LastById(local).entries, id), LatestOf(rt, p, id), LatestOf(rt, q, id), options)
  }

  ghost predicate AllSplitsAgree(rt: Runtime, local: seq<Form>, p: seq<Form>, q: seq<Form>, options: Options) {
    forall id :: SplitAgreesFor(rt, local, p, q, options, id)
  }

  ghost predicate SameEntry(a: seq<Form>, b: seq<Form>, id: string) {
    Entry(LastById(a).entries, id) == Entry(LastById(b).entries, id)
  }

  lemma SplitMerge(rt: Runtime, local: seq<Form>, p: seq<Form>, q: seq<Form>, options: Options,
                   first: seq<Form>, second: seq<Form>, once: seq<Form>)
    requires Lawful(rt) && AllVerified(rt, local) && AllVerified(rt, p) && AllVerified(rt, q)
    requires IsMerge(rt, local, Collect(rt, p, options).Values(), options, first)
    requires IsMerge(rt, first, Collect(rt, q, options).Values(), options, second)
    requires IsMerge(rt, local, Collect(rt, p + q, options).Values(), options, once)
    ensures second == once <==> AllSplitsAgree(rt, local, p, q, options)
  {
    RebaseKeeps(rt, local, p, options, first);
    RebaseKeeps(rt, first, q, options, second);
    RebaseKeeps(rt, local, p + q, options, once);
    SplitEntries(rt, local, p, q, options, first, second, once);
    MergesSameExactly(rt, first, Collect(rt, q, options).Values(), second, local,
                      Collect(rt, p + q, options).Values(), once, options);
  }

  /** Two merges are the same list exactly if they hold the same copy of every id. */
  lemma MergesSameExactly(rt: Runtime, l: seq<Form>, r: seq<Form>, a: seq<Form>, l': seq<Form>, r': seq<Form>,
                          b: seq<Form>, options: Options)
    requires Lawful(rt) && IsMerge(rt, l, r, options, a) && IsMerge(rt, l', r', options, b)
    ensures a == b <==> forall id :: SameEntry(a, b, id)
  {
    var ma := MergedMap(rt, LastById(l).entries, LastById(r).entries, options);
    var mb := MergedMap(rt, LastById(l').entries, LastById(r').entries, options);
    MergedMapKeyed(rt, LastById(l).entries, LastById(r).entries, options);
    MergedMapKeyed(rt, LastById(l').entries, LastById(r').entries, options);
    if forall id :: SameEntry(a, b, id) {
      forall id ensures Entry(LastById(a).entries, id) == Entry(LastById(b).entries, id) {
        assert SameEntry(a, b, id);
      }
      SameMerge(rt, a, ma, b, mb);
    }
  }

  lemma SplitEntries(rt: Runtime, local: seq<Form>, p: seq<Form>, q: seq<Form>, options: Options,
                     first: seq<Form>, second: seq<Form>, once: seq<Form>)
    requires Lawful(rt) && AllVerified(rt, local) && AllVerified(rt, p) && AllVerified(rt, q)
    requires Keeps(rt, local, p, options, first) && Keeps(rt, first, q, options, second)
    requires Keeps(rt, local, p + q, options, once)
    ensures (forall id :: SameEntry(second, once, id)) <==> AllSplitsAgree(rt, local, p, q, options)
  {
    forall id ensures SameEntry(second, once, id) <==> SplitAgreesFor(rt, local, p, q, options, id) {
      SplitEntry(rt, local, p, q, options, first, second, once, id);
    }
  }

  lemma SplitEntry(rt: Runtime, local: seq<Form>, p: seq<Form>, q: seq<Form>, options: Options,
                   first: seq<Form>, second: seq<Form>, once: seq<Form>, id: string)
    requires Lawful(rt) && AllVerified(rt, local) && AllVerified(rt, p) && AllVerified(rt, q)
    requires Keeps(rt, local, p, options, first) && Keeps(rt, first, q, options, second)
    requires Keeps(rt, local, p + q, options, once)
    ensures SameEntry(second, once, id) <==> SplitAgreesFor(rt, local, p, q, options, id)
  {
    LatestOfAppend(rt, p, q, id);
    LatestOfVerified(rt, p, id);
    LatestOfVerified(rt, q, id);
    var l := Entry(LastById(local).entries, id);
    if l.Some? {
      LastByIdComesFrom(local, id);
    }
    SplitAgreesAt(rt, l, LatestOf(rt, p, id), LatestOf(rt, q, id), options);
  }

  /**
   Rebasing over the commits seen so far, and later over all of them from the stored cursor,
   keeps what one rebase keeps exactly if the split does not matter for any id.
   */
  lemma SplitAgreesExactly(rt: Runtime, local: seq<Form>, earlier: seq<Commit>, n: nat, commits: seq<Commit>,
                           options: Options, first: RebaseResult, second: RebaseResult, once: RebaseResult)
    requires Lawful(rt) && AllVerified(rt, local) && AllCommitsVerified(rt, commits)
    requires DistinctCommits(commits) && IsPrefixOf(earlier, n, commits)
    requires IsRebase(rt, local, earlier, None, options, first)
    requires IsRebase(rt, first.merged, commits, first.lastApplied, options, second)
    requires IsRebase(rt, local, commits, None, options, once)
    ensures second.lastApplied == once.lastApplied
    ensures second.merged == once.merged
      <==> AllSplitsAgree(rt, local, Replay(InCommitOrder(commits)[..n]), Replay(InCommitOrder(commits)[n..]), options)
  {
    var s := InCommitOrder(commits);
    StepsApply(earlier, n, commits);
    OrderedVerified(rt, commits, n);
    ReplaySplit(s, n);
    RebaseMerges(rt, local, earlier, None, options, first);
    RebaseMerges(rt, first.merged, commits, first.lastApplied, options, second);
    RebaseMerges(rt, local, commits, None, options, once);
    SplitMerge(rt, local, Replay(s[..n]), Replay(s[n..]), options, first.merged, second.merged, once.merged);
  }

  /** Two versions of one new id, in two commits: under `prefer-local` a split keeps the older one. */
  lemma SplitCanDisagree(rt: Runtime, p: Form, q: Form, a: Cursor, b: Cursor, options: Options,
                         first: RebaseResult, second: RebaseResult, once: RebaseResult)
    requires Lawful(rt) && Verified(rt, p) && Verified(rt, q) && CursorBefore(a, b)
    requires p.id == q.id && p.contentHash != q.contentHash && p.updatedAtMs < q.updatedAtMs
    requires options.policy.PreferLocal?
    requires IsRebase(rt, [], [Commit(a, [p])], None, options, first)
    requires IsRebase(rt, first.merged, [Commit(a, [p]), Commit(b, [q])], first.lastApplied, options, second)
    requires IsRebase(rt, [], [Commit(a, [p]), Commit(b, [q])], None, options, once)
    ensures second.merged != once.merged
  {
    var earlier, commits := [Commit(a, [p])], [Commit(a, [p]), Commit(b, [q])];
    TwoCommits(a, b, [p], [q]);
    BothVerified(rt, p, q, a, b);
    SplitAgreesExactly(rt, [], earlier, 1, commits, options, first, second, once);
    OlderIsKept(rt, p, q, options);
  }

  lemma BothVerified(rt: Runtime, p: Form, q: Form, a: Cursor, b: Cursor)
    requires Verified(rt, p) && Verified(rt, q) && CursorBefore(a, b)
    ensures AllCommitsVerified(rt, [Commit(a, [p]), Commit(b, [q])])
    ensures DistinctCommits([Commit(a, [p]), Commit(b, [q])])
  {
    CursorOrder(a, b);
  }

  lemma OlderIsKept(rt: Runtime, p: Form, q: Form, options: Options)
    requires p.id == q.id && p.contentHash != q.contentHash && p.updatedAtMs < q.updatedAtMs
    requires options.policy.PreferLocal?
    ensures !AllSplitsAgree(rt, [], [p], [q], options)
  {
    OneForm(rt, p);
    OneForm(rt, q);
    assert LastById([]).entries == map[];
    assert !SplitAgreesFor(rt, [], [p], [q], options, p.id);
  }

  lemma OneForm(rt: Runtime, tf: Form)
    ensures LatestOf(rt, [tf], tf.id) == Some(tf)
  {
    assert [tf][..0] == [];
  }

  lemma TwoCommits(a: Cursor, b: Cursor, p: seq<Form>, q: seq<Form>)
    requires CursorBefore(a, b)
    ensures
      var s := InCommitOrder([Commit(a, p), Commit(b, q)]);
      s[..1] == [Commit(a, p)] && s[1..] == [Commit(b, q)] && Replay(s[..1]) == p && Replay(s[1..]) == q
  {
    CursorOrder(a, b);
    var x, y := Commit(a, p), Commit(b, q);
    assert [x, y][..1] == [x] && [x][..0] == [] && [y][..0] == [];
    assert InCommitOrder([]) == [];
    assert InCommitOrder([x]) == [x];
    assert Ordering.Insert([], y, CommitBefore) == [y];
    assert Ordering.Insert([x], y, CommitBefore) == [x] + [y];
    assert InCommitOrder([x, y]) == [x] + [y];
    assert Replay([]) == [];
  }
}
