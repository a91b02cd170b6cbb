/**
 Entity mentions in a sentence. Runs of at most `maxWords` words are looked up in an index
 of entity texts; the result agrees with searching every text at every position.
 */
module Mentions {
  import opened Wrappers
  import opened Ordering

  const MAX_MENTIONS_PER_SENTENCE: nat := 64
  const MAX_ENTITY_WORDS: nat := 8
  const MAX_UNINDEXED_ENTITIES: nat := 256
  const MAX_RELATIONSHIPS: nat := 5000

  /** `lower` is the lower-cased text; the length is that of the text as written. */
  datatype Entity = Entity(id: string, lower: string, textLength: nat)

  datatype Mention = Mention(entity: Entity, start: nat, end: nat)

  datatype EntityIndex = EntityIndex(byText: map<string, Entity>, unindexed: seq<Entity>, maxWords: nat)

  // ------------------------------------------------------------- words

  /** The class \w of a regular expression. */
  predicate IsWord(c: char) {
    'a' <= c <= 'z' || 'A' <= c <= 'Z' || '0' <= c <= '9' || c == '_'
  }

  /** Digits, letters and the underscore by their code points. */
  lemma WordCharacters(c: char)
    ensures IsWord(c)
      <==> 48 <= c as int <= 57 || 65 <= c as int <= 90 || c as int == 95 || 97 <= c as int <= 122
  {
  }

  predicate WordStart(s: string, p: nat) {
    p < |s| && IsWord(s[p]) && (p == 0 || !IsWord(s[p - 1]))
  }

  predicate WordEnd(s: string, q: nat) {
    0 < q <= |s| && IsWord(s[q - 1]) && (q == |s| || !IsWord(s[q]))
  }

  /** How many words start before position `n`. */
  function Starts(s: string, n: nat): nat
    requires n <= |s|
  {
    if n == 0 then 0 else Starts(s, n - 1) + if WordStart(s, n - 1) then 1 else 0
  }

  function WordCount(s: string): nat {
    Starts(s, |s|)
  }

  lemma {:induction false} StartsGrow(s: string, a: nat, b: nat)
    requires a <= b <= |s|
    ensures Starts(s, a) <= Starts(s, b)
    ensures a < b && WordStart(s, a) ==> Starts(s, a) < Starts(s, b)
  {
    if a < b {
      StartsGrow(s, a, b - 1);
    }
  }

  /** A word start is known by its rank. */
  lemma StartByRank(s: string, p: nat, q: nat)
    requires WordStart(s, p) && WordStart(s, q) && Starts(s, p) == Starts(s, q)
    ensures p == q
  {
    StartsGrow(s, if p < q then p else q, if p < q then q else p);
  }

  /** Without a word start in between, a stretch that ends inside a word is all word. */
  lemma {:induction false} NoStartNoGap(s: string, a: nat, b: nat)
    requires a < b <= |s| && IsWord(s[b - 1]) && Starts(s, a) == Starts(s, b)
    ensures a > 0 && IsWord(s[a - 1]) && IsWord(s[a])
  {
    StartsGrow(s, a, b - 1);
    if a < b - 1 {
      NoStartNoGap(s, a, b - 1);
    }
  }

  lemma EndByRank(s: string, p: nat, q: nat)
    requires WordEnd(s, p) && WordEnd(s, q) && Starts(s, p) == Starts(s, q)
    ensures p == q
  {
    if p < q {
      NoStartNoGap(s, p, q);
    } else if q < p {
      NoStartNoGap(s, q, p);
    }
  }

  /** The starts and ends of all words, in order. */
  ghost predicate IsWordList(s: string, starts: seq<nat>, ends: seq<nat>, upTo: nat)
    requires upTo <= |s|
  {
    && |starts| == |ends| == Starts(s, upTo)
    && (forall m :: 0 <= m < |starts| ==> WordStart(s, starts[m]) && Starts(s, starts[m]) == m)
    && (forall m :: 0 <= m < |ends| ==> WordEnd(s, ends[m]) && Starts(s, ends[m]) == m + 1)
  }

  /** The loop over the matches of /\w+/g. */
  method FindWords(s: string) returns (starts: seq<nat>, ends: seq<nat>)
    ensures IsWordList(s, starts, ends, |s|)
  {
    starts, ends := [], [];
    var pos: nat := 0;
    while pos < |s|
      invariant pos <= |s|
      invariant pos == 0 || pos == |s| || !IsWord(s[pos - 1]) || !IsWord(s[pos])
      invariant IsWordList(s, starts, ends, pos)
    {
      if !IsWord(s[pos]) {
        pos := pos + 1;
      } else {
        var end := EndOfWord(s, pos);
        starts := starts + [pos];
        ends := ends + [end];
        pos := end;
      }
    }
  }

  method EndOfWord(s: string, start: nat) returns (end: nat)
    requires WordStart(s, start)
    ensures start < end <= |s| && WordEnd(s, end) && Starts(s, end) == Starts(s, start) + 1
  {
    end := start + 1;
    while end < |s| && IsWord(s[end])
      invariant start < end <= |s| && IsWord(s[end - 1])
      invariant Starts(s, end) == Starts(s, start) + 1
    {
      end := end + 1;
    }
  }

  // --------------------------------------------------------- naive search

  /** `text` stands at `p` with no word character on either side. */
  predicate Occurs(s: string, text: string, p: nat) {
    && p + |text| <= |s|
    && s[p..p + |text|] == text
    && (p == 0 || !IsWord(s[p - 1]))
    && (p + |text| == |s| || !IsWord(s[p + |text|]))
  }

  /** A text that starts and ends with a word character. */
  predicate Wordy(text: string) {
    text != [] && IsWord(text[0]) && IsWord(text[|text| - 1])
  }

  lemma OccurrenceIsRun(s: string, text: string, p: nat)
    requires Occurs(s, text, p) && Wordy(text)
    ensures WordStart(s, p) && WordEnd(s, p + |text|)
    ensures Starts(s, p + |text|) == Starts(s, p) + WordCount(text)
  {
    assert s[p] == text[0] && s[p + |text| - 1] == text[|text| - 1];
    StartsInside(s, text, p, |text|);
  }

  lemma {:induction false} StartsInside(s: string, text: string, p: nat, r: nat)
    requires Occurs(s, text, p) && r <= |text|
    ensures Starts(s, p + r) == Starts(s, p) + Starts(text, r)
  {
    if r > 0 {
      StartsInside(s, text, p, r - 1);
      assert s[p + r - 1] == text[r - 1];
      assert r > 1 ==> s[p + r - 2] == text[r - 2];
    }
  }

  // ------------------------------------------------------------ the index

  predicate Indexable(e: Entity) {
    0 < WordCount(e.lower) <= MAX_ENTITY_WORDS && Wordy(e.lower)
  }

  ghost predicate DistinctEntities(entities: seq<Entity>) {
    forall i, j :: 0 <= i < j < |entities| ==>
      entities[i].id != entities[j].id && entities[i].lower != entities[j].lower
  }

  ghost predicate ValidIndex(index: EntityIndex) {
    && (forall t :: t in index.byText ==>
          index.byText[t].lower == t && Wordy(t) && WordCount(t) <= index.maxWords)
    && (forall t, u :: t in index.byText && u in index.byText && index.byText[t].id == index.byText[u].id ==> t == u)
  }

  function Unindexed(entities: seq<Entity>): seq<Entity> {
    if entities == [] then []
    else
      var before := Unindexed(entities[..|entities| - 1]);
      var e := entities[|entities| - 1];
      if !Indexable(e) && |before| < MAX_UNINDEXED_ENTITIES then before + [e] else before
  }

  ghost predicate IndexHolds(index: EntityIndex, entities: seq<Entity>) {
    && (forall e :: e in entities && Indexable(e) ==> e.lower in index.byText && index.byText[e.lower] == e)
    && (forall t :: t in index.byText ==> index.byText[t] in entities && Indexable(index.byText[t]))
    && index.unindexed == Unindexed(entities)
    && 1 <= index.maxWords <= MAX_ENTITY_WORDS
  }

  /** An entity of one to eight words that starts and ends with a word character. */
  ghost predicate FitsIndex(e: Entity) {
    1 <= WordCount(e.lower) <= 8 && e.lower != "" && IsWord(e.lower[0]) && IsWord(e.lower[|e.lower| - 1])
  }

  /** The entities that do not fit, in order. */
  ghost function Unfit(entities: seq<Entity>): seq<Entity> {
    if entities == [] then []
    else
      var e := entities[|entities| - 1];
      Unfit(entities[..|entities| - 1]) + if FitsIndex(e) then [] else [e]
  }

  /** The entities that fit are found under their text; of the others the first 256 are kept. */
  ghost predicate IndexesEach(index: EntityIndex, entities: seq<Entity>) {
    && (forall e :: e in entities && FitsIndex(e) ==> e.lower in index.byText && index.byText[e.lower] == e)
    && (forall t :: t in index.byText ==>
          index.byText[t] in entities && FitsIndex(index.byText[t]) && index.byText[t].lower == t)
    && index.unindexed == if |Unfit(entities)| <= 256 then Unfit(entities) else Unfit(entities)[..256]
  }

  lemma {:induction false} UnindexedAreFirst(entities: seq<Entity>)
    ensures Unindexed(entities) == if |Unfit(entities)| <= 256 then Unfit(entities) else Unfit(entities)[..256]
  {
    if entities != [] {
      UnindexedAreFirst(entities[..|entities| - 1]);
    }
  }

  lemma HeldIndexesEach(index: EntityIndex, entities: seq<Entity>)
    requires ValidIndex(index) && IndexHolds(index, entities)
    ensures IndexesEach(index, entities)
  {
    UnindexedAreFirst(entities);
    forall e ensures FitsIndex(e) <==> Indexable(e) {
    }
  }

  method IndexEntities(entities: seq<Entity>) returns (index: EntityIndex)
    requires DistinctEntities(entities)
    ensures ValidIndex(index) && IndexHolds(index, entities) && IndexesEach(index, entities)
  {
    index := EntityIndex(map[], [], 1);
    for i := 0 to |entities|
      invariant ValidIndex(index) && IndexHolds(index, entities[..i])
    {
      var e := entities[i];
      NewEntity(entities, i);
      assert entities[..i + 1] == entities[..i] + [e];
      AddedIsIndexed(index, entities[..i], e);
      if Indexable(e) {
        var byText := index.byText;
        if e.lower !in byText {
          byText := byText[e.lower := e];
        }
        index := index.(byText := byText, maxWords := Max(index.maxWords, WordCount(e.lower)));
      } else if |index.unindexed| < MAX_UNINDEXED_ENTITIES {
        index := index.(unindexed := index.unindexed + [e]);
      }
    }
    assert entities[..|entities|] == entities;
    HeldIndexesEach(index, entities);
  }

  function Max(a: nat, b: nat): nat {
    if a < b then b else a
  }

  lemma AddedIsIndexed(index: EntityIndex, known: seq<Entity>, e: Entity)
    requires ValidIndex(index) && IndexHolds(index, known)
    requires forall x :: x in known ==> x.id != e.id && x.lower != e.lower
    ensures e.lower !in index.byText
    ensures Indexable(e) ==>
      var next := index.(byText := index.byText[e.lower := e], maxWords := Max(index.maxWords, WordCount(e.lower)));
      ValidIndex(next) && IndexHolds(next, known + [e])
    ensures !Indexable(e) ==> IndexHolds(index.(unindexed := Unindexed(known + [e])), known + [e])
    ensures !Indexable(e) ==>
      Unindexed(known + [e]) == index.unindexed + if |index.unindexed| < MAX_UNINDEXED_ENTITIES then [e] else []
  {
    assert (known + [e])[..|known|] == known;
    forall t | t in index.byText ensures t != e.lower {
      assert index.byText[t] in known;
    }
    if Indexable(e) {
      var next := index.(byText := index.byText[e.lower := e], maxWords := Max(index.maxWords, WordCount(e.lower)));
      assert ValidIndex(next);
    }
  }

  lemma NewEntity(entities: seq<Entity>, i: nat)
    requires DistinctEntities(entities) && i < |entities|
    ensures forall e :: e in entities[..i] ==> e.id != entities[i].id && e.lower != entities[i].lower
  {
    forall e | e in entities[..i] ensures e.id != entities[i].id && e.lower != entities[i].lower {
      var j :| 0 <= j < i && entities[j] == e;
    }
  }

  // ----------------------------------------------------------- the lookup

  /** A mention of an indexed entity: its leftmost occurrence. */
  ghost predicate IsFirstMention(s: string, index: EntityIndex, m: Mention) {
    && m.entity.lower in index.byText && index.byText[m.entity.lower] == m.entity
    && Occurs(s, m.entity.lower, m.start)
    && m.end == m.start + |m.entity.lower|
    && forall p: nat :: p < m.start ==> !Occurs(s, m.entity.lower, p)
  }

  ghost predicate Sound(s: string, index: EntityIndex, mentions: seq<Mention>, seen: set<string>) {
    && (forall m :: m in mentions ==> IsFirstMention(s, index, m) && m.entity.id in seen)
    && (forall id :: id in seen ==> exists m :: m in mentions && m.entity.id == id)
    && (forall i, j :: 0 <= i < j < |mentions| ==> mentions[i].entity.id != mentions[j].entity.id)
  }

  /** Occurrences whose run of words has been looked up: first word before `i`, or `i` and ending by `j`. */
  ghost predicate Covered(s: string, index: EntityIndex, seen: set<string>, i: nat, j: nat) {
    forall t, p: nat :: t in index.byText && Occurs(s, t, p) && LookedUp(s, t, p, i, j) ==> index.byText[t].id in seen
  }

  ghost predicate LookedUp(s: string, t: string, p: nat, i: nat, j: nat)
    requires Occurs(s, t, p)
  {
    Starts(s, p) < i || (Starts(s, p) == i && Starts(s, p + |t|) <= j)
  }

  /** The lookup of one run of words. */
  method LookUp(s: string, index: EntityIndex, start: nat, end: nat, ghost i: nat, ghost j: nat,
                before: seq<Mention>, known: set<string>)
    returns (mentions: seq<Mention>, seen: set<string>)
    requires ValidIndex(index) && Sound(s, index, before, known) && Covered(s, index, known, i, j)
    requires WordStart(s, start) && Starts(s, start) == i && WordEnd(s, end) && Starts(s, end) == j + 1
    requires start < end
    ensures Sound(s, index, mentions, seen) && Covered(s, index, seen, i, j + 1)
  {
    mentions, seen := before, known;
    var text := s[start..end];
    RunCoversOnlyItself(s, index, start, end, i, j, known);
    if text in index.byText && index.byText[text].id !in seen {
      seen := seen + {index.byText[text].id};
      mentions := mentions + [Mention(index.byText[text], start, end)];
      FirstMention(s, index, start, end, i, j, known);
      AddedIsSound(s, index, before, known, Mention(index.byText[text], start, end));
    }
  }

  lemma AddedIsSound(s: string, index: EntityIndex, before: seq<Mention>, known: set<string>, m: Mention)
    requires Sound(s, index, before, known) && IsFirstMention(s, index, m) && m.entity.id !in known
    ensures Sound(s, index, before + [m], known + {m.entity.id})
  {
    var mentions := before + [m];
    forall id | id in known + {m.entity.id} ensures exists x :: x in mentions && x.entity.id == id {
      if id == m.entity.id {
        assert m in mentions;
      } else {
        var x :| x in before && x.entity.id == id;
        assert x in mentions;
      }
    }
    forall i, j | 0 <= i < j < |mentions| ensures mentions[i].entity.id != mentions[j].entity.id {
      assert mentions[i] in before;
    }
  }

  /** The occurrences newly covered are those of the run's own text. */
  lemma RunCoversOnlyItself(s: string, index: EntityIndex, start: nat, end: nat, i: nat, j: nat, known: set<string>)
    requires ValidIndex(index) && Covered(s, index, known, i, j)
    requires WordStart(s, start) && Starts(s, start) == i && WordEnd(s, end) && Starts(s, end) == j + 1
    requires start < end
    ensures forall t, p: nat :: t in index.byText && Occurs(s, t, p) && LookedUp(s, t, p, i, j + 1) ==>
        index.byText[t].id in known || t == s[start..end]
  {
    forall t, p: nat | t in index.byText && Occurs(s, t, p) && LookedUp(s, t, p, i, j + 1)
      ensures index.byText[t].id in known || t == s[start..end]
    {
      if !LookedUp(s, t, p, i, j) {
        OccurrenceIsRun(s, t, p);
        StartByRank(s, p, start);
        EndByRank(s, p + |t|, end);
      }
    }
  }

  lemma FirstMention(s: string, index: EntityIndex, start: nat, end: nat, i: nat, j: nat, known: set<string>)
    requires ValidIndex(index) && Covered(s, index, known, i, j)
    requires WordStart(s, start) && Starts(s, start) == i && WordEnd(s, end) && start < end
    requires s[start..end] in index.byText && index.byText[s[start..end]].id !in known
    ensures IsFirstMention(s, index, Mention(index.byText[s[start..end]], start, end))
  {
    var text := s[start..end];
    forall p: nat | p < start && Occurs(s, text, p) ensures false {
      OccurrenceIsRun(s, text, p);
      StartsGrow(s, p, start);
      assert LookedUp(s, text, p, i, j);
    }
    assert text == index.byText[text].lower;
  }

  method LookUpFrom(s: string, index: EntityIndex, starts: seq<nat>, ends: seq<nat>, i: nat,
                    before: seq<Mention>, known: set<string>)
    returns (mentions: seq<Mention>, seen: set<string>)
    requires ValidIndex(index) && IsWordList(s, starts, ends, |s|) && i < |starts|
    requires Sound(s, index, before, known) && Covered(s, index, known, i, i)
    ensures Sound(s, index, mentions, seen) && Covered(s, index, seen, i + 1, i + 1)
  {
    mentions, seen := before, known;
    var limit := if |starts| < i + index.maxWords then |starts| else i + index.maxWords;
    var j := i;
    while j < limit
      invariant i <= j && (j <= limit || limit < i)
      invariant Sound(s, index, mentions, seen) && Covered(s, index, seen, i, j)
    {
      StartBeforeEnd(s, starts[i], ends[j]);
      mentions, seen := LookUp(s, index, starts[i], ends[j], i, j, mentions, seen);
      j := j + 1;
    }
    LimitCovers(s, index, starts, ends, i, j, seen);
  }

  lemma StartBeforeEnd(s: string, start: nat, end: nat)
    requires WordStart(s, start) && WordEnd(s, end) && Starts(s, start) < Starts(s, end)
    ensures start < end
  {
    if end <= start {
      StartsGrow(s, end, start);
    }
  }

  /** No entity has more than `maxWords` words, so the bounded lookup misses no occurrence. */
  lemma LimitCovers(s: string, index: EntityIndex, starts: seq<nat>, ends: seq<nat>, i: nat, j: nat, seen: set<string>)
    requires ValidIndex(index) && IsWordList(s, starts, ends, |s|) && i < |starts|
    requires i <= j && (j >= |starts| || j >= i + index.maxWords) && Covered(s, index, seen, i, j)
    ensures Covered(s, index, seen, i + 1, i + 1)
  {
    forall t, p: nat | t in index.byText && Occurs(s, t, p) && LookedUp(s, t, p, i + 1, i + 1)
      ensures index.byText[t].id in seen
    {
      LimitCoversOne(s, index, starts, ends, i, j, t, p);
    }
  }

  lemma LimitCoversOne(s: string, index: EntityIndex, starts: seq<nat>, ends: seq<nat>, i: nat, j: nat, t: string,
                       p: nat)
    requires ValidIndex(index) && IsWordList(s, starts, ends, |s|) && i < |starts|
    requires i <= j && (j >= |starts| || j >= i + index.maxWords)
    requires t in index.byText && Occurs(s, t, p) && LookedUp(s, t, p, i + 1, i + 1)
    ensures LookedUp(s, t, p, i, j)
  {
    OccurrenceIsRun(s, t, p);
    StartsGrow(s, p, p + |t|);
    StartsGrow(s, p + |t|, |s|);
  }

  /** The contract of the lookup: exactly the entities a naive search finds, each at its leftmost place. */
  ghost predicate AgreesWithNaiveSearch(s: string, index: EntityIndex, mentions: seq<Mention>) {
    && (forall m :: m in mentions ==> IsFirstMention(s, index, m))
    && (forall i, j :: 0 <= i < j < |mentions| ==> mentions[i].entity.id != mentions[j].entity.id)
    && (forall t, p: nat :: t in index.byText && Occurs(s, t, p) ==>
          exists m :: m in mentions && m.entity == index.byText[t])
  }

  method FindIndexed(s: string, index: EntityIndex) returns (mentions: seq<Mention>, seen: set<string>)
    requires ValidIndex(index)
    ensures AgreesWithNaiveSearch(s, index, mentions)
    ensures forall id :: id in seen <==> exists m :: m in mentions && m.entity.id == id
  {
    var starts, ends := FindWords(s);
    mentions, seen := [], {};
    NothingCovered(s, index);
    var i: nat := 0;
    while i < |starts|
      invariant i <= |starts|
      invariant Sound(s, index, mentions, seen) && Covered(s, index, seen, i, i)
    {
      mentions, seen := LookUpFrom(s, index, starts, ends, i, mentions, seen);
      i := i + 1;
    }
    AllCovered(s, index, i, mentions, seen);
  }

  lemma NothingCovered(s: string, index: EntityIndex)
    requires ValidIndex(index)
    ensures Covered(s, index, {}, 0, 0)
  {
    forall t, p: nat | t in index.byText && Occurs(s, t, p) ensures !LookedUp(s, t, p, 0, 0) {
      OccurrenceIsRun(s, t, p);
      StartsGrow(s, p, p + |t|);
    }
  }

  lemma AllCovered(s: string, index: EntityIndex, i: nat, mentions: seq<Mention>, seen: set<string>)
    requires ValidIndex(index) && i == WordCount(s)
    requires Sound(s, index, mentions, seen) && Covered(s, index, seen, i, i)
    ensures AgreesWithNaiveSearch(s, index, mentions)
  {
    forall t, p: nat | t in index.byText && Occurs(s, t, p)
      ensures exists m :: m in mentions && m.entity == index.byText[t]
    {
      OccurrenceIsRun(s, t, p);
      StartsGrow(s, p, |s|);
      assert LookedUp(s, t, p, i, i);
      var m :| m in mentions && m.entity.id == index.byText[t].id;
      assert IsFirstMention(s, index, m);
    }
  }

  // --------------------------------------- the other entities, sort, cap

  predicate StandsAt(s: string, text: string, p: nat) {
    p + |text| <= |s| && s[p..p + |text|] == text
  }

  /** `indexOf` from position `from` on. */
  function IndexOf(s: string, text: string, from: nat): (r: Option<nat>)
    ensures r.Some? ==> from <= r.value && StandsAt(s, text, r.value)
    ensures forall p: nat :: from <= p && (r.None? || p < r.value) ==> !StandsAt(s, text, p)
    decreases |s| - from
  {
    if from + |text| > |s| then None
    else if StandsAt(s, text, from) then Some(from)
    else IndexOf(s, text, from + 1)
  }

  /** Unindexed entities are searched for directly; an entity seen already is not repeated. */
  function DirectMentions(s: string, entities: seq<Entity>, seen: set<string>): seq<Mention> {
    if entities == [] then []
    else
      var e := entities[0];
      var at := IndexOf(s, e.lower, 0);
      if at.Some? && e.id !in seen then
        [Mention(e, at.value, at.value + e.textLength)] + DirectMentions(s, entities[1..], seen + {e.id})
      else DirectMentions(s, entities[1..], seen)
  }

  /** A mention of an unindexed entity that is not mentioned yet: where its text stands first. */
  ghost predicate IsDirectMention(s: string, m: Mention) {
    && m.end == m.start + m.entity.textLength && StandsAt(s, m.entity.lower, m.start)
    && forall p: nat :: p < m.start ==> !StandsAt(s, m.entity.lower, p)
  }

  ghost predicate Mentioned(direct: seq<Mention>, id: string) {
    exists m :: m in direct && m.entity.id == id
  }

  ghost predicate OnlyDirectMentions(s: string, entities: seq<Entity>, seen: set<string>, direct: seq<Mention>) {
    && (forall m :: m in direct ==> IsDirectMention(s, m) && m.entity in entities && m.entity.id !in seen)
    && (forall i, j :: 0 <= i < j < |direct| ==> direct[i].entity.id != direct[j].entity.id)
  }

  ghost predicate AllDirectMentions(s: string, entities: seq<Entity>, seen: set<string>, direct: seq<Mention>) {
    forall e, p: nat :: e in entities && StandsAt(s, e.lower, p) ==> e.id in seen || Mentioned(direct, e.id)
  }

  /** Exactly the entities whose text stands somewhere and whose id is not among `seen`, each once. */
  ghost predicate AgreesWithDirectSearch(s: string, entities: seq<Entity>, seen: set<string>, direct: seq<Mention>) {
    OnlyDirectMentions(s, entities, seen, direct) && AllDirectMentions(s, entities, seen, direct)
  }

  lemma {:induction false} DirectMentionsAgree(s: string, entities: seq<Entity>, seen: set<string>)
    ensures AgreesWithDirectSearch(s, entities, seen, DirectMentions(s, entities, seen))
    decreases |entities|
  {
    if entities != [] {
      var e, rest := entities[0], entities[1..];
      var at := IndexOf(s, e.lower, 0);
      assert entities == [e] + rest;
      if at.Some? && e.id !in seen {
        var others := DirectMentions(s, rest, seen + {e.id});
        DirectMentionsAgree(s, rest, seen + {e.id});
        FirstFoundOnly(s, e, rest, seen, at.value, others);
        FirstFoundAll(s, e, rest, seen, Mention(e, at.value, at.value + e.textLength), others);
      } else {
        DirectMentionsAgree(s, rest, seen);
        FirstPassed(s, e, rest, seen, DirectMentions(s, rest, seen));
      }
    }
  }

  lemma FirstPassed(s: string, e: Entity, rest: seq<Entity>, seen: set<string>, direct: seq<Mention>)
    requires IndexOf(s, e.lower, 0).None? || e.id in seen
    requires AgreesWithDirectSearch(s, rest, seen, direct)
    ensures AgreesWithDirectSearch(s, [e] + rest, seen, direct)
  {
    forall x | x in [e] + rest ensures x == e || x in rest {
    }
    forall x | x in rest ensures x in [e] + rest {
    }
  }

  lemma FirstFoundOnly(s: string, e: Entity, rest: seq<Entity>, seen: set<string>, at: nat, others: seq<Mention>)
    requires IndexOf(s, e.lower, 0) == Some(at) && e.id !in seen
    requires OnlyDirectMentions(s, rest, seen + {e.id}, others)
    ensures OnlyDirectMentions(s, [e] + rest, seen, [Mention(e, at, at + e.textLength)] + others)
  {
    var first := Mention(e, at, at + e.textLength);
    var direct := [first] + others;
    assert IsDirectMention(s, first);
    forall m | m in direct ensures IsDirectMention(s, m) && m.entity in [e] + rest && m.entity.id !in seen {
      assert m == first || m in others;
    }
    forall i, j | 0 <= i < j < |direct| ensures direct[i].entity.id != direct[j].entity.id {
      assert direct[j] == others[j - 1] && direct[j] in others;
    }
  }

  lemma FirstFoundAll(s: string, e: Entity, rest: seq<Entity>, seen: set<string>, first: Mention, others: seq<Mention>)
    requires first.entity == e && AllDirectMentions(s, rest, seen + {e.id}, others)
    ensures AllDirectMentions(s, [e] + rest, seen, [first] + others)
  {
    forall x, p: nat | x in [e] + rest && StandsAt(s, x.lower, p)
      ensures x.id in seen || Mentioned([first] + others, x.id)
    {
      if x.id == e.id {
        assert first in [first] + others;
      } else {
        assert x in rest;
        MentionedBehind(first, others, x.id);
      }
    }
  }

  lemma MentionedBehind(first: Mention, others: seq<Mention>, id: string)
    ensures Mentioned(others, id) ==> Mentioned([first] + others, id)
  {
    if m :| m in others && m.entity.id == id {
      assert m in [first] + others;
    }
  }

  predicate ByPosition(a: Mention, b: Mention) {
    a.start < b.start || (a.start == b.start && b.end < a.end)
  }

  function FirstMentions(mentions: seq<Mention>): seq<Mention> {
    if |mentions| <= MAX_MENTIONS_PER_SENTENCE then mentions else mentions[..MAX_MENTIONS_PER_SENTENCE]
  }

  function Ids(mentions: seq<Mention>): set<string> {
    set m | m in mentions :: m.entity.id
  }

  /** From left to right, and of two that start together the longer one first. */
  ghost predicate LeftToRight(mentions: seq<Mention>) {
    forall i, j :: 0 <= i < j < |mentions| ==>
      || mentions[i].start < mentions[j].start
      || (mentions[i].start == mentions[j].start && mentions[j].end <= mentions[i].end)
  }

  /** All of the mentions found if they are at most 64, and else the 64 leftmost ones. */
  ghost predicate AreLeftmost(found: seq<Mention>, mentions: seq<Mention>) {
    && LeftToRight(mentions) && |mentions| == (if |found| < 64 then |found| else 64)
    && (forall m :: multiset(mentions)[m] <= multiset(found)[m])
    && forall m, x :: m in mentions && x in found && x !in mentions ==>
         m.start < x.start || (m.start == x.start && x.end <= m.end)
  }

  lemma SortedIsLeftToRight(sorted: seq<Mention>, n: nat)
    requires Sorted(sorted, ByPosition) && n <= |sorted|
    ensures LeftToRight(sorted[..n])
  {
    forall i, j | 0 <= i < j < n
      ensures sorted[i].start < sorted[j].start
        || (sorted[i].start == sorted[j].start && sorted[j].end <= sorted[i].end)
    {
      assert !ByPosition(sorted[j], sorted[i]);
    }
  }

  /** What is cut off does not come before what is kept. */
  lemma CutOffIsBehind(sorted: seq<Mention>, n: nat, m: Mention, x: Mention)
    requires LeftToRight(sorted) && n <= |sorted| && m in sorted[..n] && x in sorted && x !in sorted[..n]
    ensures m.start < x.start || (m.start == x.start && x.end <= m.end)
  {
    assert sorted == sorted[..n] + sorted[n..];
    var q :| 0 <= q < n && sorted[..n][q] == m;
    var p :| 0 <= p < |sorted| - n && sorted[n..][p] == x;
    assert sorted[q] == m && sorted[n + p] == x;
  }

  lemma PrefixCounts<T>(xs: seq<T>, n: nat, x: T)
    requires n <= |xs|
    ensures multiset(xs[..n])[x] <= multiset(xs)[x]
  {
    assert xs == xs[..n] + xs[n..];
  }

  lemma SameMembers<T>(a: seq<T>, b: seq<T>)
    requires multiset(a) == multiset(b)
    ensures forall x :: x in a <==> x in b
  {
    forall x ensures x in a <==> x in b {
      assert x in a <==> x in multiset(a);
      assert x in b <==> x in multiset(b);
    }
  }

  lemma FirstAreLeftmost(found: seq<Mention>, sorted: seq<Mention>, mentions: seq<Mention>)
    requires sorted == Sort(found, ByPosition) && mentions == FirstMentions(sorted)
    ensures AreLeftmost(found, mentions)
  {
    var n := |mentions|;
    ByPositionIsStrictWeakOrder();
    SortSorts(found, ByPosition);
    SortKeepsElements(found, ByPosition);
    SameMembers(found, sorted);
    assert mentions == sorted[..n] && sorted == sorted[..|sorted|];
    SortedIsLeftToRight(sorted, n);
    SortedIsLeftToRight(sorted, |sorted|);
    forall m ensures multiset(mentions)[m] <= multiset(found)[m] {
      PrefixCounts(sorted, n, m);
    }
    forall m, x | m in mentions && x in found && x !in mentions
      ensures m.start < x.start || (m.start == x.start && x.end <= m.end)
    {
      CutOffIsBehind(sorted, n, m, x);
    }
  }

  lemma ByPositionIsStrictWeakOrder()
    ensures StrictWeakOrder(ByPosition)
  {
  }

  /** The loop over the unindexed entities. */
  method AddDirect(s: string, entities: seq<Entity>, before: seq<Mention>, known: set<string>)
    returns (mentions: seq<Mention>)
    ensures mentions == before + DirectMentions(s, entities, known)
  {
    var seen := known;
    mentions := before;
    for i := 0 to |entities|
      invariant mentions + DirectMentions(s, entities[i..], seen) == before + DirectMentions(s, entities, known)
    {
      var e := entities[i];
      assert entities[i..][0] == e && entities[i..][1..] == entities[i + 1..];
      var at := IndexOf(s, e.lower, 0);
      if at.Some? && e.id !in seen {
        seen := seen + {e.id};
        mentions := mentions + [Mention(e, at.value, at.value + e.textLength)];
      }
    }
  }

  method FindMentions(s: string, index: EntityIndex)
    returns (mentions: seq<Mention>, ghost indexed: seq<Mention>, ghost direct: seq<Mention>)
    requires ValidIndex(index)
    ensures AgreesWithNaiveSearch(s, index, indexed)
    ensures AgreesWithDirectSearch(s, index.unindexed, Ids(indexed), direct)
    ensures AreLeftmost(indexed + direct, mentions)
    ensures mentions == FirstMentions(Sort(indexed + DirectMentions(s, index.unindexed, Ids(indexed)), ByPosition))
    ensures |mentions| <= MAX_MENTIONS_PER_SENTENCE && Sorted(mentions, ByPosition)
  {
    var seen;
    mentions, seen := FindIndexed(s, index);
    indexed := mentions;
    assert seen == Ids(indexed);
    direct := DirectMentions(s, index.unindexed, seen);
    DirectMentionsAgree(s, index.unindexed, seen);
    mentions := AddDirect(s, index.unindexed, mentions, seen);
    var sorted := Sort(mentions, ByPosition);
    FirstAreSorted(mentions);
    FirstAreLeftmost(mentions, sorted, FirstMentions(sorted));
    mentions := FirstMentions(sorted);
  }

  /** From left to right; of two mentions that start together the longer one comes first. */
  lemma FirstAreSorted(mentions: seq<Mention>)
    ensures Sorted(FirstMentions(Sort(mentions, ByPosition)), ByPosition)
  {
    assert StrictWeakOrder(ByPosition);
    SortSorts(mentions, ByPosition);
  }

  // -------------------------------------------------------- relationships

  datatype Relationship = Relationship(subjectId: string, verb: string, objectId: string)

  /** What a sentence says about two mentions, found by patterns between them. */
  type VerbFinder = (string, Mention, Mention) -> Option<string>

  function Relate(s: string, subj: Mention, obj: Mention, verbOf: VerbFinder): seq<Relationship> {
    match verbOf(s, subj, obj)
    case Some(verb) => [Relationship(subj.entity.id, verb, obj.entity.id)]
    case None => []
  }

  /** The relationships of the first `n` neighbouring pairs of mentions. */
  function RelateNeighbours(s: string, ms: seq<Mention>, n: nat, verbOf: VerbFinder): seq<Relationship>
    requires n == 0 || n < |ms|
  {
    if n == 0 then [] else RelateNeighbours(s, ms, n - 1, verbOf) + Relate(s, ms[n - 1], ms[n], verbOf)
  }

  function RelateSentence(s: string, ms: seq<Mention>, verbOf: VerbFinder): seq<Relationship> {
    RelateNeighbours(s, ms, if ms == [] then 0 else |ms| - 1, verbOf)
  }

  /** All relationships of a text, without a limit. */
  function RelateAll(sentences: seq<string>, mentionsOf: string -> seq<Mention>,
                     verbOf: VerbFinder): seq<Relationship> {
    if sentences == [] then []
    else
      var last := sentences[|sentences| - 1];
      RelateAll(sentences[..|sentences| - 1], mentionsOf, verbOf) + RelateSentence(last, mentionsOf(last), verbOf)
  }

  function FirstRelationships(rels: seq<Relationship>): seq<Relationship> {
    if |rels| <= MAX_RELATIONSHIPS then rels else rels[..MAX_RELATIONSHIPS]
  }

  /** Stopping at the limit gives the first relationships of the unlimited list, and no others. */
  method InferRelationships(sentences: seq<string>, mentionsOf: string -> seq<Mention>, verbOf: VerbFinder)
    returns (rels: seq<Relationship>)
    ensures rels == FirstRelationships(RelateAll(sentences, mentionsOf, verbOf))
    ensures
      var all := RelateAll(sentences, mentionsOf, verbOf);
      rels <= all && |rels| == if |all| < 5000 then |all| else 5000
  {
    rels := [];
    for i := 0 to |sentences|
      invariant rels == FirstRelationships(RelateAll(sentences[..i], mentionsOf, verbOf))
    {
      if |rels| >= MAX_RELATIONSHIPS {
        FullStaysFull(sentences, i, mentionsOf, verbOf);
        return;
      }
      assert sentences[..i + 1][..i] == sentences[..i];
      rels := AddSentence(rels, sentences[i], mentionsOf(sentences[i]), verbOf);
    }
    assert sentences[..|sentences|] == sentences;
  }

  /** The pairs of one sentence, up to the limit. */
  method AddSentence(before: seq<Relationship>, s: string, ms: seq<Mention>, verbOf: VerbFinder)
    returns (rels: seq<Relationship>)
    requires |before| < MAX_RELATIONSHIPS
    ensures rels == FirstRelationships(before + RelateSentence(s, ms, verbOf))
  {
    rels := before;
    var i := 0;
    while i + 1 < |ms|
      invariant (i == 0 || i < |ms|) && |rels| < MAX_RELATIONSHIPS
      invariant rels == before + RelateNeighbours(s, ms, i, verbOf)
    {
      NextNeighbours(s, ms, i, before, verbOf);
      var verb := verbOf(s, ms[i], ms[i + 1]);
      if verb.Some? {
        rels := rels + [Relationship(ms[i].entity.id, verb.value, ms[i + 1].entity.id)];
        assert rels == before + RelateNeighbours(s, ms, i + 1, verbOf);
        if |rels| >= MAX_RELATIONSHIPS {
          NeighboursReachLimit(before, s, ms, i + 1, verbOf);
          return;
        }
      }
      i := i + 1;
    }
    assert RelateSentence(s, ms, verbOf) == RelateNeighbours(s, ms, i, verbOf);
  }

  lemma NextNeighbours(s: string, ms: seq<Mention>, i: nat, before: seq<Relationship>, verbOf: VerbFinder)
    requires i + 1 < |ms|
    ensures
      var verb, known := verbOf(s, ms[i], ms[i + 1]), before + RelateNeighbours(s, ms, i, verbOf);
      before + RelateNeighbours(s, ms, i + 1, verbOf)
      == if verb.Some? then known + [Relationship(ms[i].entity.id, verb.value, ms[i + 1].entity.id)] else known
  {
  }

  lemma NeighboursReachLimit(before: seq<Relationship>, s: string, ms: seq<Mention>, n: nat, verbOf: VerbFinder)
    requires n < |ms| && |before + RelateNeighbours(s, ms, n, verbOf)| == MAX_RELATIONSHIPS
    ensures FirstRelationships(before + RelateSentence(s, ms, verbOf)) == before + RelateNeighbours(s, ms, n, verbOf)
  {
    NeighboursArePrefix(s, ms, n, |ms| - 1, verbOf);
    LimitReached(before, RelateNeighbours(s, ms, n, verbOf), RelateSentence(s, ms, verbOf));
  }

  lemma LimitReached(before: seq<Relationship>, part: seq<Relationship>, whole: seq<Relationship>)
    requires part <= whole && |before + part| == MAX_RELATIONSHIPS
    ensures FirstRelationships(before + whole) == before + part
  {
  }

  lemma {:induction false} NeighboursArePrefix(s: string, ms: seq<Mention>, m: nat, n: nat, verbOf: VerbFinder)
    requires m <= n < |ms|
    ensures RelateNeighbours(s, ms, m, verbOf) <= RelateNeighbours(s, ms, n, verbOf)
    decreases n
  {
    if m < n {
      NeighboursArePrefix(s, ms, m, n - 1, verbOf);
    }
  }

  lemma {:induction false} FullStaysFull(sentences: seq<string>, i: nat, mentionsOf: string -> seq<Mention>,
                                         verbOf: VerbFinder)
    requires i <= |sentences| && |RelateAll(sentences[..i], mentionsOf, verbOf)| >= MAX_RELATIONSHIPS
    ensures |RelateAll(sentences, mentionsOf, verbOf)| >= MAX_RELATIONSHIPS
    ensures FirstRelationships(RelateAll(sentences, mentionsOf, verbOf))
      == FirstRelationships(RelateAll(sentences[..i], mentionsOf, verbOf))
    decreases |sentences|
  {
    if i == |sentences| {
      assert sentences[..i] == sentences;
    } else {
      var init := sentences[..|sentences| - 1];
      assert init[..i] == sentences[..i];
      FullStaysFull(init, i, mentionsOf, verbOf);
    }
  }

  /** `r` relates the mentions `i` and `i + 1` of the sentence. */
  ghost predicate RelatesAt(s: string, ms: seq<Mention>, i: nat, verbOf: VerbFinder, r: Relationship) {
    && i + 1 < |ms| && verbOf(s, ms[i], ms[i + 1]) == Some(r.verb)
    && r.subjectId == ms[i].entity.id && r.objectId == ms[i + 1].entity.id
  }

  /** A sentence's relationships are exactly those of two neighbouring mentions with a verb between them. */
  lemma RelatedExactly(s: string, ms: seq<Mention>, verbOf: VerbFinder, r: Relationship)
    ensures r in RelateSentence(s, ms, verbOf) <==> exists i: nat :: RelatesAt(s, ms, i, verbOf, r)
  {
    if ms != [] {
      NeighboursExactly(s, ms, |ms| - 1, verbOf, r);
    }
  }

  lemma {:induction false} NeighboursExactly(s: string, ms: seq<Mention>, n: nat, verbOf: VerbFinder, r: Relationship)
    requires n < |ms|
    ensures r in RelateNeighbours(s, ms, n, verbOf) <==> exists i: nat :: i < n && RelatesAt(s, ms, i, verbOf, r)
  {
    if n > 0 {
      NeighboursExactly(s, ms, n - 1, verbOf, r);
      assert r in Relate(s, ms[n - 1], ms[n], verbOf) <==> RelatesAt(s, ms, n - 1, verbOf, r);
    }
  }

  // -------------------------------------------------------- context graph

  type Graph = map<string, seq<string>>

  ghost predicate Linked(rels: seq<Relationship>, a: string, b: string) {
    exists r :: r in rels && ((r.subjectId == a && r.objectId == b) || (r.subjectId == b && r.objectId == a))
  }

  /** Each linked pair, in both directions and once. */
  ghost predicate IsContextGraph(graph: Graph, rels: seq<Relationship>) {
    && (forall a :: a in graph ==> NoRepeats(graph[a]))
    && (forall a :: a in graph <==> exists b :: Linked(rels, a, b))
    && (forall a, b :: a in graph ==> (b in graph[a] <==> Linked(rels, a, b)))
  }

  function Connect(graph: Graph, a: string, b: string): Graph {
    if a in graph then (if b in graph[a] then graph else graph[a := graph[a] + [b]]) else graph[a := [b]]
  }

  method BuildContextGraph(rels: seq<Relationship>) returns (graph: Graph)
    ensures IsContextGraph(graph, rels)
  {
    graph := map[];
    for i := 0 to |rels|
      invariant IsContextGraph(graph, rels[..i])
    {
      assert rels[..i + 1] == rels[..i] + [rels[i]];
      OneMoreLink(graph, rels[..i], rels[i]);
      graph := Connect(graph, rels[i].subjectId, rels[i].objectId);
      graph := Connect(graph, rels[i].objectId, rels[i].subjectId);
    }
    assert rels[..|rels|] == rels;
  }

  lemma ConnectAdds(graph: Graph, a: string, b: string)
    requires forall x :: x in graph ==> NoRepeats(graph[x])
    ensures var g := Connect(graph, a, b);
      && (forall x :: x in g ==> NoRepeats(g[x]))
      && g.Keys == graph.Keys + {a}
      && (forall x, y :: x in g ==> (y in g[x] <==> (x in graph && y in graph[x]) || (x == a && y == b)))
  {
  }

  lemma LinkedOneMore(rels: seq<Relationship>, r: Relationship, a: string, b: string)
    ensures Linked(rels + [r], a, b)
      <==> Linked(rels, a, b) || (r.subjectId == a && r.objectId == b) || (r.subjectId == b && r.objectId == a)
  {
    if Linked(rels, a, b) {
      var x :| x in rels && ((x.subjectId == a && x.objectId == b) || (x.subjectId == b && x.objectId == a));
      assert x in rels + [r];
    }
    assert r in rels + [r];
  }

  lemma OneMoreLink(graph: Graph, rels: seq<Relationship>, r: Relationship)
    requires IsContextGraph(graph, rels)
    ensures IsContextGraph(Connect(Connect(graph, r.subjectId, r.objectId), r.objectId, r.subjectId), rels + [r])
  {
    ConnectAdds(graph, r.subjectId, r.objectId);
    var g1 := Connect(graph, r.subjectId, r.objectId);
    ConnectAdds(g1, r.objectId, r.subjectId);
    var g := Connect(g1, r.objectId, r.subjectId);
    forall a, b | a in g ensures b in g[a] <==> Linked(rels + [r], a, b) {
      LinkedOneMore(rels, r, a, b);
    }
    forall a ensures a in g <==> exists b :: Linked(rels + [r], a, b) {
      NodeOneMore(graph, rels, r, a);
    }
  }

  lemma NodeOneMore(graph: Graph, rels: seq<Relationship>, r: Relationship, a: string)
    requires IsContextGraph(graph, rels)
    ensures (exists b :: Linked(rels + [r], a, b)) <==> a in graph || a == r.subjectId || a == r.objectId
  {
    LinkedOneMore(rels, r, a, r.objectId);
    LinkedOneMore(rels, r, a, r.subjectId);
    if a in graph {
      var b :| Linked(rels, a, b);
      LinkedOneMore(rels, r, a, b);
    }
    if b :| Linked(rels + [r], a, b) {
      LinkedOneMore(rels, r, a, b);
    }
  }
}
