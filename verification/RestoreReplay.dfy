/** Restore replays every commit and keeps one form per id; rebase does the same on its own terms. */
module RestoreReplay {
  import opened Wrappers
  import opened Ordering
  import opened InsertionMap
  import opened JsonText
  import opened Canonical
  import opened Conflict
  import opened Rebase

  /** A form replaces a kept one if it is newer, or as new with a greater hash. */
  predicate Replaces(tf: Form, existing: Form) {
    || tf.updatedAtMs > existing.updatedAtMs
    || (tf.updatedAtMs == existing.updatedAtMs && StringLess(existing.contentHash, tf.contentHash))
  }

  function Keep(m: JsMap<Form>, tf: Form): JsMap<Form> {
    if !m.Has(tf.id) || Replaces(tf, m.entries[tf.id]) then m.Put(tf.id, tf) else m
  }

  function KeepAll(forms: seq<Form>): (m: JsMap<Form>)
    ensures m.Valid() && Keyed(m.entries)
  {
    if forms == [] then Empty() else Keep(KeepAll(forms[..|forms| - 1]), forms[|forms| - 1])
  }

  lemma ReplayOneMore(commits: seq<Commit>, i: nat)
    requires i < |commits|
    ensures Replay(commits[..i + 1]) == Replay(commits[..i]) + commits[i].thoughtforms
  {
    assert commits[..i + 1][..i] == commits[..i];
  }

  lemma KeepOneMore(forms: seq<Form>, j: nat)
    requires j < |forms|
    ensures KeepAll(forms[..j + 1]) == Keep(KeepAll(forms[..j]), forms[j])
  {
    assert forms[..j + 1][..j] == forms[..j];
  }

  // -------------------------------------------------------- what is kept

  /** Newer than all earlier forms of its id and no older than all later ones, by time and then by hash. */
  ghost predicate IsNewest(forms: seq<Form>, i: nat) {
    && i < |forms|
    && (forall j :: 0 <= j < i && forms[j].id == forms[i].id ==>
          || forms[j].updatedAtMs < forms[i].updatedAtMs
          || (forms[j].updatedAtMs == forms[i].updatedAtMs && StringLess(forms[j].contentHash, forms[i].contentHash)))
    && (forall j :: i < j < |forms| && forms[j].id == forms[i].id ==>
          || forms[j].updatedAtMs < forms[i].updatedAtMs
          || (forms[j].updatedAtMs == forms[i].updatedAtMs
              && !StringLess(forms[i].contentHash, forms[j].contentHash)))
  }

  ghost predicate IsNewestOfSome(forms: seq<Form>, tf: Form) {
    exists i: nat :: IsNewest(forms, i) && forms[i] == tf
  }

  /** Exactly the newest forms, one of every id, in the order in which the ids first occur. */
  ghost predicate AreNewest(forms: seq<Form>, kept: seq<Form>) {
    && (forall i: nat :: IsNewest(forms, i) ==> forms[i] in kept)
    && (forall tf :: tf in kept ==> IsNewestOfSome(forms, tf))
    && forall a, b :: 0 <= a < b < |kept| ==> FirstSeen(forms, kept[a].id) < FirstSeen(forms, kept[b].id)
  }

  lemma {:induction false} KeptKeys(forms: seq<Form>)
    ensures KeepAll(forms).keys == LastById(forms).keys
    ensures KeepAll(forms).entries.Keys == LastById(forms).entries.Keys
  {
    if forms != [] {
      KeptKeys(forms[..|forms| - 1]);
    }
  }

  /** What replaces the newest form so far is newer than all forms so far. */
  lemma ReplacesAll(forms: seq<Form>, k: nat, tf: Form)
    requires IsNewest(forms, k) && Replaces(tf, forms[k])
    ensures forall j :: 0 <= j < |forms| && forms[j].id == forms[k].id ==> Replaces(tf, forms[j])
  {
    forall j | 0 <= j < |forms| && forms[j].id == forms[k].id ensures Replaces(tf, forms[j]) {
      StringLessTotal(forms[j].contentHash, forms[k].contentHash);
      if forms[j].updatedAtMs == tf.updatedAtMs && StringLess(forms[j].contentHash, forms[k].contentHash) {
        StringLessTransitive(forms[j].contentHash, forms[k].contentHash, tf.contentHash);
      }
    }
  }

  lemma {:induction false} KeptIsNewest(forms: seq<Form>, id: string) returns (i: nat)
    requires id in KeepAll(forms).entries
    ensures IsNewest(forms, i) && forms[i].id == id && KeepAll(forms).entries[id] == forms[i]
  {
    var n := |forms| - 1;
    var init, last := forms[..n], forms[n];
    assert forms == init + [last];
    KeptLast(KeepAll(init), last, id);
    if !KeepAll(init).Has(id) {
      FirstOfId(init, id);
      LastIsNewest(forms, init, last);
      i := n;
    } else {
      i := KeptIsNewest(init, id);
      if last.id == id && Replaces(last, init[i]) {
        ReplacesAll(init, i, last);
        LastIsNewest(forms, init, last);
        i := n;
      } else {
        NewestStays(forms, i);
      }
    }
  }

  /** What is kept of an id after one more form. */
  lemma KeptLast(before: JsMap<Form>, last: Form, id: string)
    requires id in Keep(before, last).entries
    ensures !before.Has(id) ==> last.id == id
    ensures Keep(before, last).entries[id]
      == if last.id == id && (!before.Has(id) || Replaces(last, before.entries[id])) then last
         else before.entries[id]
  {
  }

  lemma LastIsNewest(forms: seq<Form>, init: seq<Form>, last: Form)
    requires forms == init + [last]
    requires forall j :: 0 <= j < |init| && init[j].id == last.id ==> Replaces(last, init[j])
    ensures IsNewest(forms, |forms| - 1)
  {
    assert forall j :: 0 <= j < |init| ==> init[j] == forms[j];
  }

  lemma NewestStays(forms: seq<Form>, i: nat)
    requires forms != [] && IsNewest(forms[..|forms| - 1], i)
    requires var last := forms[|forms| - 1]; last.id == forms[i].id ==> !Replaces(last, forms[i])
    ensures IsNewest(forms, i)
  {
    var init := forms[..|forms| - 1];
    assert forall j :: 0 <= j < |init| ==> init[j] == forms[j];
  }

  lemma FirstOfId(forms: seq<Form>, id: string)
    requires !KeepAll(forms).Has(id)
    ensures forall j :: 0 <= j < |forms| ==> forms[j].id != id
  {
    KeptKeys(forms);
    HasIdExactly(forms, id);
  }

  lemma OneNewest(forms: seq<Form>, i: nat, k: nat)
    requires IsNewest(forms, i) && IsNewest(forms, k) && forms[i].id == forms[k].id
    ensures i == k
  {
  }

  /** Restoring keeps exactly the newest form of every id. */
  lemma KeptAreNewest(forms: seq<Form>)
    ensures AreNewest(forms, KeepAll(forms).Values())
  {
    var m := KeepAll(forms);
    var kept := m.Values();
    KeptKeys(forms);
    KeysAsSeen(forms);
    forall a | 0 <= a < |kept| ensures kept[a].id == m.keys[a] {
      assert m.keys[a] in m.entries;
    }
    forall i: nat | IsNewest(forms, i) ensures forms[i] in kept {
      HasIdExactly(forms, forms[i].id);
      var k := KeptIsNewest(forms, forms[i].id);
      OneNewest(forms, i, k);
      InValues(m, forms[i].id);
    }
    forall tf | tf in kept ensures IsNewestOfSome(forms, tf) {
      var k := KeptIsNewest(forms, tf.id);
    }
  }

  method DeduplicateById(forms: seq<Form>) returns (kept: JsMap<Form>)
    ensures kept == KeepAll(forms)
  {
    kept := Empty();
    for j := 0 to |forms|
      invariant kept == KeepAll(forms[..j])
    {
      KeepOneMore(forms, j);
      kept := Keep(kept, forms[j]);
    }
    assert forms[..|forms|] == forms;
  }

  /** The replay: sort the commits, extract their forms, deduplicate by id. */
  method RestoreForms(commits: seq<Commit>) returns (deduped: seq<Form>)
    ensures deduped == KeepAll(Replay(InCommitOrder(commits))).Values()
    ensures AreNewest(Replay(InCommitOrder(commits)), deduped)
  {
    KeptAreNewest(Replay(InCommitOrder(commits)));
    var ordered := InCommitOrder(commits);
    var all: seq<Form> := [];
    for i := 0 to |ordered|
      invariant all == Replay(ordered[..i])
    {
      ReplayOneMore(ordered, i);
      all := all + ordered[i].thoughtforms;
    }
    assert ordered[..|ordered|] == ordered;
    var kept := DeduplicateById(all);
    deduped := kept.Values();
  }

  /** `localeCompare` orders these hashes as `<` does; on lowercase hex it does. */
  ghost predicate CommonHashOrder(rt: Runtime, forms: seq<Form>) {
    forall a, b :: a in forms && b in forms
      ==> (rt.compare(a.contentHash, b.contentHash) > 0 <==> StringLess(b.contentHash, a.contentHash))
  }

  lemma {:induction false} KeptFormsComeFrom(forms: seq<Form>, id: string)
    requires id in KeepAll(forms).entries
    ensures KeepAll(forms).entries[id] in forms
  {
    var init := forms[..|forms| - 1];
    if id in KeepAll(init).entries {
      KeptFormsComeFrom(init, id);
    }
  }

  /** With verified hashes the two deduplicators build the same map, in the same order. */
  lemma {:induction false} DeduplicatorsAgree(rt: Runtime, forms: seq<Form>, options: Options)
    requires Lawful(rt) && AllVerified(rt, forms) && CommonHashOrder(rt, forms)
    ensures KeepAll(forms) == Collect(rt, forms, options)
  {
    if forms != [] {
      var init, tf := forms[..|forms| - 1], forms[|forms| - 1];
      assert forall x :: x in init ==> x in forms;
      DeduplicatorsAgree(rt, init, options);
      var kept := KeepAll(init);
      assert tf in forms;
      if kept.Has(tf.id) {
        KeptFormsComeFrom(init, tf.id);
        StepAgrees(rt, kept, tf, options);
      }
    }
  }

  lemma StepAgrees(rt: Runtime, kept: JsMap<Form>, tf: Form, options: Options)
    requires Lawful(rt) && kept.Has(tf.id)
    requires var e := kept.entries[tf.id];
      && Verified(rt, e) && Verified(rt, tf)
      && (rt.compare(tf.contentHash, e.contentHash) > 0 <==> StringLess(e.contentHash, tf.contentHash))
    ensures Keep(kept, tf) == Absorb(rt, kept, tf, options)
  {
    var e := kept.entries[tf.id];
    ResolveIsLatest(rt, e, tf, DeltaOptions(options));
    assert Replaces(tf, e) <==> Beats(rt, tf, e);
    assert kept.entries[tf.id := e] == kept.entries;
  }

  /** Restore writes exactly the delta that a first rebase takes from the same commits. */
  lemma RestoreIsFirstDelta(rt: Runtime, commits: seq<Commit>, options: Options)
    requires Lawful(rt) && AllCommitsVerified(rt, commits)
    requires CommonHashOrder(rt, Replay(InCommitOrder(commits)))
    ensures KeepAll(Replay(InCommitOrder(commits))).Values()
         == Collect(rt, Replay(CommitsAfter(commits, None)), options).Values()
  {
    AfterAll(InCommitOrder(commits));
    OrderedVerified(rt, commits, 0);
    assert InCommitOrder(commits)[0..] == InCommitOrder(commits);
    DeduplicatorsAgree(rt, Replay(InCommitOrder(commits)), options);
  }

  // ------------------------------------------------------- stale hashes

  /** As new as `e` under the same stored hash, with other content and a greater source. */
  predicate StaleTie(rt: Runtime, e: Form, x: Form) {
    && x.updatedAtMs == e.updatedAtMs && x.contentHash == e.contentHash
    && ComputeContentHash(rt, x) != ComputeContentHash(rt, e)
    && rt.compare(e.source, x.source) < 0
  }

  ghost predicate HasStaleTie(rt: Runtime, forms: seq<Form>, e: Form) {
    exists x :: x in forms && x.id == e.id && StaleTie(rt, e, x)
  }

  /** What restore keeps as `e` and a rebase collects as `w` from the same forms. */
  ghost predicate Paired(rt: Runtime, forms: seq<Form>, e: Form, w: Form) {
    && w.id == e.id && w.updatedAtMs == e.updatedAtMs && w.contentHash == e.contentHash
    && (w == e <==> !HasStaleTie(rt, forms, e))
    && (w != e ==> rt.compare(e.source, w.source) < 0)
    && (forall x :: x in forms && x.id == e.id ==> !Replaces(x, e))
  }

  /** Replacement in the two loops, for any stored hashes. */
  lemma WinnerOfTie(rt: Runtime, w: Form, tf: Form, options: Options)
    requires Lawful(rt) && LastWriteWins(options) && w.id == tf.id
    requires rt.compare(tf.contentHash, w.contentHash) > 0 <==> StringLess(w.contentHash, tf.contentHash)
    ensures ResolveConflict(rt, w, tf, options).winner == if Replaces(tf, w) || StaleTie(rt, w, tf) then tf else w
  {
    assert rt.compare(tf.contentHash, w.contentHash) > 0 <==> rt.compare(w.contentHash, tf.contentHash) < 0;
  }

  /** One more form of the id. */
  lemma PairStaysPaired(rt: Runtime, init: seq<Form>, tf: Form, e: Form, w: Form, e': Form, w': Form)
    requires Lawful(rt) && Paired(rt, init, e, w) && e.id == tf.id
    requires e' == if Replaces(tf, e) then tf else e
    requires w' == if Replaces(tf, w) || StaleTie(rt, w, tf) then tf else w
    ensures Paired(rt, init + [tf], e', w')
  {
    if Replaces(tf, e) {
      Superseded(rt, init, tf, e);
    } else {
      OneMoreTie(rt, init, tf, e);
    }
  }

  lemma Superseded(rt: Runtime, init: seq<Form>, tf: Form, e: Form)
    requires Lawful(rt) && e.id == tf.id && Replaces(tf, e)
    requires forall x :: x in init && x.id == e.id ==> !Replaces(x, e)
    ensures !HasStaleTie(rt, init + [tf], tf)
    ensures forall x :: x in init + [tf] && x.id == tf.id ==> !Replaces(x, tf)
  {
    StringLessTotal(tf.contentHash, tf.contentHash);
    forall x | x in init && x.id == tf.id ensures !Replaces(x, tf) && !StaleTie(rt, tf, x) {
      if StringLess(e.contentHash, tf.contentHash) && StringLess(tf.contentHash, x.contentHash) {
        StringLessTransitive(e.contentHash, tf.contentHash, x.contentHash);
      }
    }
  }

  lemma OneMoreTie(rt: Runtime, init: seq<Form>, tf: Form, e: Form)
    requires e.id == tf.id
    ensures HasStaleTie(rt, init + [tf], e) <==> HasStaleTie(rt, init, e) || StaleTie(rt, e, tf)
  {
    assert tf in init + [tf];
    forall x | x in init ensures x in init + [tf] {
    }
  }

  /** A form of another id. */
  lemma OtherPairStays(rt: Runtime, init: seq<Form>, tf: Form, e: Form, w: Form)
    requires Paired(rt, init, e, w) && e.id != tf.id
    ensures Paired(rt, init + [tf], e, w)
  {
    assert HasStaleTie(rt, init + [tf], e) <==> HasStaleTie(rt, init, e) by {
      forall x | x in init ensures x in init + [tf] {
      }
    }
  }

  lemma NewPair(rt: Runtime, init: seq<Form>, tf: Form)
    requires Lawful(rt) && forall x :: x in init ==> x.id != tf.id
    ensures Paired(rt, init + [tf], tf, tf)
  {
    StringLessTotal(tf.contentHash, tf.contentHash);
  }

  /** What the two maps hold of one id. */
  ghost predicate PairedAt(rt: Runtime, forms: seq<Form>, kept: map<string, Form>, collected: map<string, Form>,
                           id: string) {
    && (id in kept <==> id in collected)
    && (id in kept ==>
          && kept[id].id == id && collected[id] in forms
          && Paired(rt, forms, kept[id], collected[id]))
    && (id !in kept ==> forall x :: x in forms ==> x.id != id)
  }

  lemma {:induction false} LoopsArePaired(rt: Runtime, forms: seq<Form>, options: Options, id: string)
    requires Lawful(rt) && CommonHashOrder(rt, forms)
    ensures PairedAt(rt, forms, KeepAll(forms).entries, Collect(rt, forms, options).entries, id)
  {
    if forms != [] {
      var init, tf := forms[..|forms| - 1], forms[|forms| - 1];
      assert forms == init + [tf];
      CommonOrderOfInit(rt, init, tf);
      LoopsArePaired(rt, init, options, id);
      OneMorePair(rt, init, tf, KeepAll(init), Collect(rt, init, options), options, id);
    }
  }

  lemma CommonOrderOfInit(rt: Runtime, init: seq<Form>, tf: Form)
    requires CommonHashOrder(rt, init + [tf])
    ensures CommonHashOrder(rt, init)
  {
    forall x | x in init ensures x in init + [tf] {
    }
  }

  lemma OneMorePair(rt: Runtime, init: seq<Form>, tf: Form, kept: JsMap<Form>, collected: JsMap<Form>,
                    options: Options, id: string)
    requires Lawful(rt) && CommonHashOrder(rt, init + [tf])
    requires PairedAt(rt, init, kept.entries, collected.entries, id)
    ensures PairedAt(rt, init + [tf], Keep(kept, tf).entries, Absorb(rt, collected, tf, options).entries, id)
  {
    if tf.id != id {
      OtherIdPair(rt, init, tf, kept.entries, collected.entries, Keep(kept, tf).entries,
                  Absorb(rt, collected, tf, options).entries, id);
    } else if id in kept.entries {
      SameIdPair(rt, init, tf, kept, collected, options);
    } else {
      NewPair(rt, init, tf);
    }
  }

  lemma OtherIdPair(rt: Runtime, init: seq<Form>, tf: Form, kept: map<string, Form>, collected: map<string, Form>,
                    kept': map<string, Form>, collected': map<string, Form>, id: string)
    requires PairedAt(rt, init, kept, collected, id) && tf.id != id
    requires Entry(kept', id) == Entry(kept, id) && Entry(collected', id) == Entry(collected, id)
    ensures PairedAt(rt, init + [tf], kept', collected', id)
  {
    if id in kept {
      OtherPairStays(rt, init, tf, kept[id], collected[id]);
    }
  }

  lemma SameIdPair(rt: Runtime, init: seq<Form>, tf: Form, kept: JsMap<Form>, collected: JsMap<Form>,
                   options: Options)
    requires Lawful(rt) && CommonHashOrder(rt, init + [tf]) && tf.id in kept.entries
    requires PairedAt(rt, init, kept.entries, collected.entries, tf.id)
    ensures PairedAt(rt, init + [tf], Keep(kept, tf).entries, Absorb(rt, collected, tf, options).entries, tf.id)
  {
    var e, w := kept.entries[tf.id], collected.entries[tf.id];
    var e', w' := Keep(kept, tf).entries[tf.id], Absorb(rt, collected, tf, options).entries[tf.id];
    assert tf in init + [tf] && w in init + [tf];
    WinnerOfTie(rt, w, tf, DeltaOptions(options));
    PairStaysPaired(rt, init, tf, e, w, e', w');
  }

  lemma {:induction false} LoopsHaveSameKeys(rt: Runtime, forms: seq<Form>, options: Options)
    ensures KeepAll(forms).keys == Collect(rt, forms, options).keys
    ensures KeepAll(forms).entries.Keys == Collect(rt, forms, options).entries.Keys
  {
    if forms != [] {
      LoopsHaveSameKeys(rt, forms[..|forms| - 1], options);
    }
  }

  /**
   Whatever the stored hashes, restore keeps of each id the first of the forms that are latest by
   time and stored hash, and the two deduplicators disagree exactly if, under the same time and
   stored hash, some form of an id has other content and a greater source than the one kept.
   */
  lemma StaleHashesDisagreeExactly(rt: Runtime, forms: seq<Form>, options: Options)
    requires Lawful(rt) && CommonHashOrder(rt, forms)
    ensures KeepAll(forms) == Collect(rt, forms, options)
      <==> forall id :: id in KeepAll(forms).entries ==> !HasStaleTie(rt, forms, KeepAll(forms).entries[id])
  {
    var kept, collected := KeepAll(forms), Collect(rt, forms, options);
    LoopsHaveSameKeys(rt, forms, options);
    SameJsMaps(kept, collected);
    forall id | id in kept.entries
      ensures kept.entries[id] == collected.entries[id] <==> !HasStaleTie(rt, forms, kept.entries[id])
    {
      SameAt(rt, forms, kept, collected, options, id);
    }
  }

  lemma SameAt(rt: Runtime, forms: seq<Form>, kept: JsMap<Form>, collected: JsMap<Form>, options: Options, id: string)
    requires Lawful(rt) && CommonHashOrder(rt, forms)
    requires kept == KeepAll(forms) && collected == Collect(rt, forms, options) && id in kept.entries
    ensures id in collected.entries
    ensures kept.entries[id] == collected.entries[id] <==> !HasStaleTie(rt, forms, kept.entries[id])
  {
    LoopsArePaired(rt, forms, options, id);
  }

  lemma SameJsMaps<V>(a: JsMap<V>, b: JsMap<V>)
    requires a.keys == b.keys && a.entries.Keys == b.entries.Keys
    ensures a == b <==> forall id :: id in a.entries ==> a.entries[id] == b.entries[id]
  {
  }

  // --------------------------------------------------------- such forms exist

  /** Code unit order for `localeCompare`, and a hash without collisions. */
  function PlainRuntime(): Runtime {
    Runtime(s => s, (a, b) => if a == b then 0 else if StringLess(a, b) then -1 else 1)
  }

  lemma PlainIsLawful()
    ensures Lawful(PlainRuntime())
  {
    var rt := PlainRuntime();
    forall a, b ensures rt.compare(a, b) < 0 <==> rt.compare(b, a) > 0 {
      StringLessTotal(a, b);
    }
    forall a, b, c | rt.compare(a, b) < 0 && rt.compare(b, c) < 0 ensures rt.compare(a, c) < 0 {
      StringLessTransitive(a, b, c);
      StringLessTotal(a, c);
    }
  }

  function Stale(text: string, source: string): Form {
    Form("x", Some(text), Arr([]), Arr([]), Obj([]), 0, "0123456789abcdef", source, Null)
  }

  lemma OtherText()
    ensures CanonicalJson(ContentOf(Stale("a", "s"))) != CanonicalJson(ContentOf(Stale("b", "t")))
  {
    var v, w := ContentOf(Stale("a", "s")), ContentOf(Stale("b", "t"));
    ContentIsWellFormed("a", "s");
    ContentIsWellFormed("b", "t");
    CanonicalJsonDecidesMeaning(v, w);
    MemberMeaning(v.members, 0);
    MemberMeaning(w.members, 0);
    assert "a"[0] != "b"[0];
  }

  lemma ContentIsWellFormed(text: string, source: string)
    ensures WellFormed(ContentOf(Stale(text, source)))
  {
    var ms := ContentOf(Stale(text, source)).members;
    assert |ms[0].key| == 7 && |ms[1].key| == 8 && |ms[2].key| == 13 && |ms[3].key| == 12;
  }

  lemma StaleTieExists()
    ensures StaleTie(PlainRuntime(), Stale("a", "s"), Stale("b", "t"))
  {
    OtherText();
    assert "s"[0] < "t"[0];
    assert StringLess("s", "t");
  }

  /** Two copies of an id under one stale hash: restore keeps the first, a rebase takes the second. */
  lemma StaleHashesCanDisagree(options: Options)
    ensures
      var rt, forms := PlainRuntime(), [Stale("a", "s"), Stale("b", "t")];
      Lawful(rt) && CommonHashOrder(rt, forms) && KeepAll(forms) != Collect(rt, forms, options)
  {
    var a, b := Stale("a", "s"), Stale("b", "t");
    PlainIsLawful();
    StaleTieExists();
    OneHash(PlainRuntime(), [a, b], a.contentHash);
    TieDisagrees(PlainRuntime(), a, b, options);
  }

  lemma OneHash(rt: Runtime, forms: seq<Form>, hash: string)
    requires Lawful(rt) && forall x :: x in forms ==> x.contentHash == hash
    ensures CommonHashOrder(rt, forms)
  {
    StringLessTotal(hash, hash);
    assert rt.compare(hash, hash) == 0;
  }

  lemma TieDisagrees(rt: Runtime, a: Form, b: Form, options: Options)
    requires Lawful(rt) && CommonHashOrder(rt, [a, b]) && a.id == b.id && StaleTie(rt, a, b)
    ensures KeepAll([a, b]) != Collect(rt, [a, b], options)
  {
    StringLessTotal(a.contentHash, a.contentHash);
    KeepsFirst(a, b);
    assert b in [a, b] && HasStaleTie(rt, [a, b], a);
    StaleHashesDisagreeExactly(rt, [a, b], options);
  }

  lemma KeepsFirst(a: Form, b: Form)
    requires a.id == b.id && !Replaces(b, a)
    ensures a.id in KeepAll([a, b]).entries && KeepAll([a, b]).entries[a.id] == a
  {
    assert [a, b][..1] == [a] && [a][..0] == [];
    assert KeepAll([]) == Empty();
    assert KeepAll([a]) == JsMap([a.id], map[a.id := a]);
  }
}
