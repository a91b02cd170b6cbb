/**
 Canonical JSON: object keys sorted recursively, so that equal values print equally.
 The replacer fills a fresh object in sorted key order, and that object then lists its
 keys as section 10.1.11.1 of ECMA-262 prescribes: array indices first, ascending, then
 the other keys in the order they were added.
 */
module Canonical {
  import opened Ordering
  import opened JsonText

  // ---------------------------------------------------- order of own keys

  /** An array index below 2^32 - 1, written canonically. */
  predicate IsIndex(key: string) {
    && 0 < |key| <= 10
    && (forall i :: 0 <= i < |key| ==> IsDigit(key[i]))
    && (|key| > 1 ==> key[0] != '0')
    && (|key| == 10 ==> StringLess(key, "4294967295"))
  }

  /** Numeric order on canonical index keys. */
  predicate IndexLess(a: string, b: string) {
    |a| < |b| || (|a| == |b| && StringLess(a, b))
  }

  /** The order in which the canonical object lists its keys. */
  predicate KeyLess(a: string, b: string) {
    if IsIndex(a) then !IsIndex(b) || IndexLess(a, b)
    else !IsIndex(b) && StringLess(a, b)
  }

  predicate MemberLess(a: Member, b: Member) {
    KeyLess(a.key, b.key)
  }

  lemma KeyLessTransitive(a: string, b: string, c: string)
    requires KeyLess(a, b) && KeyLess(b, c)
    ensures KeyLess(a, c)
  {
    if StringLess(a, b) && StringLess(b, c) {
      StringLessTransitive(a, b, c);
    }
  }

  lemma KeyLessTotal(a: string, b: string)
    ensures KeyLess(a, b) || KeyLess(b, a) || a == b
    ensures !(KeyLess(a, b) && KeyLess(b, a))
    ensures a == b ==> !KeyLess(a, b)
  {
    StringLessTotal(a, b);
  }

  lemma MemberLessIsStrictWeakOrder()
    ensures StrictWeakOrder(MemberLess)
  {
    forall x: Member ensures !MemberLess(x, x) {
      KeyLessTotal(x.key, x.key);
    }
    forall x: Member, y: Member, z: Member | MemberLess(x, y) && MemberLess(y, z)
      ensures MemberLess(x, z)
    {
      KeyLessTransitive(x.key, y.key, z.key);
    }
    forall x: Member, y: Member, z: Member | MemberLess(x, z)
      ensures MemberLess(x, y) || MemberLess(y, z)
    {
      KeyLessTotal(x.key, y.key);
      if KeyLess(y.key, x.key) {
        KeyLessTransitive(y.key, x.key, z.key);
      }
    }
  }

  // --------------------------------------------------------- the replacer

  ghost predicate DistinctKeys(ms: seq<Member>) {
    forall i, j :: 0 <= i < j < |ms| ==> ms[i].key != ms[j].key
  }

  lemma DistinctKeysAreUntied(ms: seq<Member>)
    requires DistinctKeys(ms)
    ensures Untied(multiset(ms), MemberLess)
  {
    forall x, y | x in multiset(ms) && y in multiset(ms) && x != y
      ensures MemberLess(x, y) || MemberLess(y, x)
    {
      KeyLessTotal(x.key, y.key);
      assert x in ms && y in ms;
    }
  }

  /** Assigning a new property: an index key finds its place, any other key comes last. */
  function AddProperty(ms: seq<Member>, m: Member): seq<Member> {
    if IsIndex(m.key) then Insert(ms, m, MemberLess) else ms + [m]
  }

  predicate ByString(a: Member, b: Member) {
    StringLess(a.key, b.key)
  }

  function Ordered(ms: seq<Member>): seq<Member> {
    Sort(ms, MemberLess)
  }

  /** The replacer's loop: add the properties in sorted key order. */
  method SortedObject(ms: seq<Member>) returns (sorted: seq<Member>)
    requires DistinctKeys(ms)
    ensures sorted == Ordered(ms)
  {
    var order := Sort(ms, ByString);
    ByStringIsStrictWeakOrder();
    SortKeepsElements(ms, ByString);
    SortSorts(ms, ByString);
    MemberLessIsStrictWeakOrder();
    sorted := [];
    for i := 0 to |order|
      invariant multiset(sorted) == multiset(order[..i])
      invariant Ordering.Sorted(sorted, MemberLess)
    {
      AddPropertyKeepsOrder(ms, order, i, sorted);
      sorted := AddProperty(sorted, order[i]);
    }
    assert order[..|order|] == order;
    DistinctKeysAreUntied(ms);
    SortSorts(ms, MemberLess);
    SortKeepsElements(ms, MemberLess);
    SortedUnique(sorted, Ordered(ms), MemberLess);
  }

  lemma ByStringIsStrictWeakOrder()
    ensures StrictWeakOrder(ByString)
  {
    forall x: Member ensures !ByString(x, x) {
      StringLessTotal(x.key, x.key);
    }
    forall x: Member, y: Member, z: Member | ByString(x, y) && ByString(y, z)
      ensures ByString(x, z)
    {
      StringLessTransitive(x.key, y.key, z.key);
    }
    forall x: Member, y: Member, z: Member | ByString(x, z)
      ensures ByString(x, y) || ByString(y, z)
    {
      StringLessTotal(x.key, y.key);
      if StringLess(y.key, x.key) {
        StringLessTransitive(y.key, x.key, z.key);
      }
    }
  }

  lemma AddPropertyKeepsOrder(ms: seq<Member>, order: seq<Member>, i: nat, done: seq<Member>)
    requires i < |order| && Ordering.Sorted(order, ByString)
    requires multiset(done) == multiset(order[..i]) && Ordering.Sorted(done, MemberLess)
    ensures var r := AddProperty(done, order[i]);
      multiset(r) == multiset(order[..i + 1]) && Ordering.Sorted(r, MemberLess)
  {
    assert order[..i + 1] == order[..i] + [order[i]];
    MemberLessIsStrictWeakOrder();
    if IsIndex(order[i].key) {
      InsertKeepsElements(done, order[i], MemberLess);
      InsertSorts(done, order[i], MemberLess);
    } else {
      forall j | 0 <= j < |done| ensures !MemberLess(order[i], done[j]) {
        assert done[j] in multiset(order[..i]);
        assert done[j] in order[..i];
      }
    }
  }

  // -------------------------------------------------------- canonical form

  /** The value with every object's members in canonical order. */
  function Canonicalize(v: Json): Json
    decreases v, 1
  {
    match v
    case Arr(items) => Arr(CanonicalItems(items))
    case Obj(members) => Obj(Ordered(CanonicalMembers(members)))
    case _ => v
  }

  function CanonicalItems(items: seq<Json>): (r: seq<Json>)
    ensures |r| == |items|
    ensures forall i :: 0 <= i < |items| ==> r[i] == Canonicalize(items[i])
    decreases items, 0
  {
    if items == [] then [] else [Canonicalize(items[0])] + CanonicalItems(items[1..])
  }

  function CanonicalMembers(ms: seq<Member>): (r: seq<Member>)
    ensures |r| == |ms|
    ensures forall i :: 0 <= i < |ms| ==> r[i] == Member(ms[i].key, Canonicalize(ms[i].value))
    decreases ms, 0
  {
    if ms == [] then []
    else [Member(ms[0].key, Canonicalize(ms[0].value))] + CanonicalMembers(ms[1..])
  }

  /** `canonicalJson(v)`. */
  function CanonicalJson(v: Json): string {
    Print(Canonicalize(v))
  }

  // ------------------------------------- equality that ignores key order

  /** A JSON value whose objects are finite maps: what a value means. */
  datatype Meaning =
    | MNull
    | MBool(b: bool)
    | MNum(n: int)
    | MDec(text: string)
    | MStr(s: string)
    | MArr(items: seq<Meaning>)
    | MObj(members: map<string, Meaning>)

  /** No object of `v`, at any depth, repeats a key. */
  ghost predicate WellFormed(v: Json)
    decreases v
  {
    match v
    case Arr(items) => forall x :: x in items ==> WellFormed(x)
    case Obj(ms) => DistinctKeys(ms) && forall m :: m in ms ==> WellFormed(m.value)
    case _ => true
  }

  ghost function MeaningOf(v: Json): Meaning
    decreases v, 1
  {
    match v
    case Null => MNull
    case Bool(b) => MBool(b)
    case Num(n) => MNum(n)
    case Dec(text) => MDec(text)
    case Str(s) => MStr(s)
    case Arr(items) => MArr(MeaningOfItems(items))
    case Obj(ms) => MObj(MeaningOfMembers(ms))
  }

  ghost function MeaningOfItems(items: seq<Json>): (r: seq<Meaning>)
    ensures |r| == |items|
    ensures forall i :: 0 <= i < |items| ==> r[i] == MeaningOf(items[i])
    decreases items, 0
  {
    if items == [] then [] else [MeaningOf(items[0])] + MeaningOfItems(items[1..])
  }

  ghost function MeaningOfMembers(ms: seq<Member>): map<string, Meaning>
    decreases ms, 0
  {
    if ms == [] then map[]
    else MeaningOfMembers(ms[1..])[ms[0].key := MeaningOf(ms[0].value)]
  }

  lemma {:induction false} MemberMeaning(ms: seq<Member>, i: nat)
    requires DistinctKeys(ms) && i < |ms|
    ensures ms[i].key in MeaningOfMembers(ms)
    ensures MeaningOfMembers(ms)[ms[i].key] == MeaningOf(ms[i].value)
  {
    if i > 0 {
      MemberMeaning(ms[1..], i - 1);
      assert ms[1..][i - 1] == ms[i];
    }
  }

  lemma {:induction false} MeaningKey(ms: seq<Member>, k: string) returns (i: nat)
    requires k in MeaningOfMembers(ms)
    ensures i < |ms| && ms[i].key == k
  {
    if ms[0].key == k {
      i := 0;
    } else {
      i := MeaningKey(ms[1..], k);
      i := i + 1;
    }
  }

  lemma DistinctAfterReordering(a: seq<Member>, b: seq<Member>)
    requires DistinctKeys(a) && multiset(a) == multiset(b)
    ensures DistinctKeys(b)
  {
    forall i, j | 0 <= i < j < |b| ensures b[i].key != b[j].key {
      if b[i].key == b[j].key {
        assert b[i] in multiset(a) && b[j] in multiset(a);
        assert b[i] in a && b[j] in a;
        assert b[i] == b[j];
        RepeatedElement(b, i, j);
        ListedOnce(a, b[i]);
      }
    }
  }

  lemma MeaningCarriesOver(a: seq<Member>, b: seq<Member>, k: string)
    requires DistinctKeys(a) && DistinctKeys(b) && multiset(a) == multiset(b)
    requires k in MeaningOfMembers(a)
    ensures k in MeaningOfMembers(b) && MeaningOfMembers(b)[k] == MeaningOfMembers(a)[k]
  {
    var i := MeaningKey(a, k);
    MemberMeaning(a, i);
    assert a[i] in multiset(b);
    var j :| 0 <= j < |b| && b[j] == a[i];
    MemberMeaning(b, j);
  }

  /** Reordering an object's members does not change what the object means. */
  lemma ReorderedMembersMean(a: seq<Member>, b: seq<Member>)
    requires DistinctKeys(a) && multiset(a) == multiset(b)
    ensures DistinctKeys(b) && MeaningOfMembers(a) == MeaningOfMembers(b)
  {
    DistinctAfterReordering(a, b);
    forall k | k in MeaningOfMembers(a)
      ensures k in MeaningOfMembers(b) && MeaningOfMembers(b)[k] == MeaningOfMembers(a)[k]
    {
      MeaningCarriesOver(a, b, k);
    }
    forall k | k in MeaningOfMembers(b) ensures k in MeaningOfMembers(a) {
      MeaningCarriesOver(b, a, k);
    }
  }

  lemma {:induction false} CanonicalizeKeepsMeaning(v: Json)
    requires WellFormed(v)
    ensures MeaningOf(Canonicalize(v)) == MeaningOf(v)
    decreases v, 1
  {
    match v
    case Arr(items) =>
      var c := CanonicalItems(items);
      forall i | 0 <= i < |items| ensures MeaningOf(c[i]) == MeaningOf(items[i]) {
        CanonicalizeKeepsMeaning(items[i]);
      }
      assert MeaningOfItems(c) == MeaningOfItems(items);
    case Obj(ms) =>
      var c := CanonicalMembers(ms);
      CanonicalMembersKeepMeaning(ms);
      assert DistinctKeys(c);
      SortKeepsElements(c, MemberLess);
      ReorderedMembersMean(c, Ordered(c));
    case _ =>
  }

  lemma {:induction false} CanonicalMembersKeepMeaning(ms: seq<Member>)
    requires forall m :: m in ms ==> WellFormed(m.value)
    ensures MeaningOfMembers(CanonicalMembers(ms)) == MeaningOfMembers(ms)
    decreases ms, 0
  {
    if ms != [] {
      CanonicalizeKeepsMeaning(ms[0].value);
      CanonicalMembersKeepMeaning(ms[1..]);
      assert CanonicalMembers(ms)[1..] == CanonicalMembers(ms[1..]);
    }
  }

  lemma {:induction false} CanonicalizeKeepsKeysDistinct(v: Json)
    requires WellFormed(v)
    ensures WellFormed(Canonicalize(v))
    decreases v
  {
    match v
    case Arr(items) =>
      forall x | x in CanonicalItems(items) ensures WellFormed(x) {
        var i :| 0 <= i < |items| && CanonicalItems(items)[i] == x;
        CanonicalizeKeepsKeysDistinct(items[i]);
      }
    case Obj(ms) =>
      var c := CanonicalMembers(ms);
      assert DistinctKeys(c);
      SortKeepsElements(c, MemberLess);
      DistinctAfterReordering(c, Ordered(c));
      forall m | m in Ordered(c) ensures WellFormed(m.value) {
        assert m in multiset(c);
        assert m in c;
        var i :| 0 <= i < |ms| && c[i] == m;
        CanonicalizeKeepsKeysDistinct(ms[i].value);
      }
    case _ =>
  }

  /** Values that mean the same have the same canonical form. */
  lemma {:induction false} SameMeaningSameForm(v: Json, w: Json)
    requires WellFormed(v) && WellFormed(w) && MeaningOf(v) == MeaningOf(w)
    ensures Canonicalize(v) == Canonicalize(w)
    decreases v
  {
    match v
    case Arr(items) =>
      assert w.Arr?;
      forall i | 0 <= i < |items| ensures Canonicalize(items[i]) == Canonicalize(w.items[i]) {
        assert MeaningOfItems(items)[i] == MeaningOfItems(w.items)[i];
        SameMeaningSameForm(items[i], w.items[i]);
      }
      assert CanonicalItems(items) == CanonicalItems(w.items);
    case Obj(ms) =>
      assert w.Obj?;
      var ns := w.members;
      forall i, j | 0 <= i < |ms| && 0 <= j < |ns| && ms[i].key == ns[j].key
        ensures Canonicalize(ms[i].value) == Canonicalize(ns[j].value)
      {
        MemberMeaning(ms, i);
        MemberMeaning(ns, j);
        SameMeaningSameForm(ms[i].value, ns[j].value);
      }
      SameCanonicalMembers(ms, ns);
      MemberLessIsStrictWeakOrder();
      DistinctKeysAreUntied(CanonicalMembers(ms));
      SortIgnoresInputOrder(CanonicalMembers(ms), CanonicalMembers(ns), MemberLess);
    case _ =>
  }

  /** Members with one key have one canonical value in both lists. */
  ghost predicate Agree(ms: seq<Member>, ns: seq<Member>) {
    forall i, j :: 0 <= i < |ms| && 0 <= j < |ns| && ms[i].key == ns[j].key
      ==> Canonicalize(ms[i].value) == Canonicalize(ns[j].value)
  }

  lemma SameCanonicalMembers(ms: seq<Member>, ns: seq<Member>)
    requires DistinctKeys(ms) && DistinctKeys(ns) && Agree(ms, ns)
    requires MeaningOfMembers(ms).Keys == MeaningOfMembers(ns).Keys
    ensures DistinctKeys(CanonicalMembers(ms))
    ensures multiset(CanonicalMembers(ms)) == multiset(CanonicalMembers(ns))
  {
    var a, b := CanonicalMembers(ms), CanonicalMembers(ns);
    forall x ensures multiset(a)[x] == multiset(b)[x] {
      ListedOnce(a, x);
      ListedOnce(b, x);
      if x in multiset(a) {
        CoveredMember(ms, ns, x);
      }
      if x in multiset(b) {
        CoveredMember(ns, ms, x);
      }
    }
  }

  lemma CoveredMember(ms: seq<Member>, ns: seq<Member>, x: Member)
    requires DistinctKeys(ms) && Agree(ms, ns)
    requires MeaningOfMembers(ms).Keys <= MeaningOfMembers(ns).Keys
    requires x in multiset(CanonicalMembers(ms))
    ensures x in multiset(CanonicalMembers(ns))
  {
    assert x in CanonicalMembers(ms);
    var i :| 0 <= i < |ms| && CanonicalMembers(ms)[i] == x;
    MemberMeaning(ms, i);
    var j := MeaningKey(ns, x.key);
    assert CanonicalMembers(ns)[j] == x;
  }

  /** Canonical JSON is equal exactly when the values differ at most in key order. */
  lemma CanonicalJsonDecidesMeaning(v: Json, w: Json)
    requires WellFormed(v) && WellFormed(w)
    ensures CanonicalJson(v) == CanonicalJson(w) <==> MeaningOf(v) == MeaningOf(w)
  {
    if CanonicalJson(v) == CanonicalJson(w) {
      ParseInvertsPrint(Canonicalize(v));
      ParseInvertsPrint(Canonicalize(w));
      CanonicalizeKeepsMeaning(v);
      CanonicalizeKeepsMeaning(w);
    }
    if MeaningOf(v) == MeaningOf(w) {
      SameMeaningSameForm(v, w);
    }
  }
}
