/**
 The k-nearest search: a widening loop around a scan that cuts off every partition at
 `fetch` rows and breaks ties as it likes.
 */
module Search {
  import opened Ordering

  /** A matching row: its fixed distance from the query and the partition it is scanned in. */
  datatype Hit = Hit(id: string, distance: real, partition: string)

  const MAX_SEARCH_FETCH: nat := 4096

  predicate HitBefore(a: Hit, b: Hit) {
    a.distance < b.distance || (a.distance == b.distance && StringLess(a.id, b.id))
  }

  /** `ranked`: by distance, then id. */
  function Ranked(hits: seq<Hit>): seq<Hit> {
    Sort(hits, HitBefore)
  }

  ghost predicate DistinctIds(hits: seq<Hit>) {
    forall i, j :: 0 <= i < j < |hits| ==> hits[i].id != hits[j].id
  }

  function Elements(hits: seq<Hit>): set<Hit> {
    set h | h in hits
  }

  /** The hits at most `d` away. */
  function Within(hits: seq<Hit>, d: real): set<Hit> {
    set h | h in hits && h.distance <= d
  }

  function InPartition(hits: seq<Hit>, partition: string): set<Hit> {
    set h | h in hits && h.partition == partition
  }

  function PartitionWithin(hits: seq<Hit>, partition: string, d: real): set<Hit> {
    set h | h in hits && h.partition == partition && h.distance <= d
  }

  /**
   What one vector query may return: from each partition up to `fetch` rows, and a row is
   only left out if its partition is full of rows that are not farther away.
   */
  ghost predicate IsScan(rows: seq<Hit>, fetch: nat, found: seq<Hit>) {
    && DistinctIds(found)
    && (forall h :: h in found ==> h in rows)
    && (forall h :: h in found ==> |InPartition(found, h.partition)| <= fetch)
    && (forall h :: h in rows && h !in found ==> LeftOutFairly(fetch, found, h))
  }

  ghost predicate LeftOutFairly(fetch: nat, found: seq<Hit>, h: Hit) {
    && |InPartition(found, h.partition)| >= fetch
    && forall r :: r in InPartition(found, h.partition) ==> r.distance <= h.distance
  }

  /** How many of the ranked hits are at most `d` away, as the loop counts them. */
  function CountWithin(hits: seq<Hit>, d: real): nat {
    if hits == [] then 0 else CountWithin(hits[1..], d) + if hits[0].distance <= d then 1 else 0
  }

  /** `boundaryTied`: the k-th row exists and no fewer than `fetch` rows are as near. */
  predicate BoundaryTied(rows: seq<Hit>, k: nat, fetch: nat)
    requires k >= 1
  {
    k <= |rows| && CountWithin(rows, rows[k - 1].distance) >= fetch
  }

  function Take(hits: seq<Hit>, k: nat): seq<Hit> {
    if |hits| <= k then hits else hits[..k]
  }

  function Min(a: nat, b: nat): nat {
    if a < b then a else b
  }

  /** Some of the rows, each once, the nearer ones first and equally near ones by id. */
  ghost predicate IsRanking(rows: seq<Hit>, top: seq<Hit>) {
    && (forall h :: h in top ==> h in rows)
    && forall i, j :: 0 <= i < j < |top| ==>
         top[i].distance < top[j].distance
         || (top[i].distance == top[j].distance && StringLess(top[i].id, top[j].id))
  }

  /** The k nearest rows: as many as there are, up to k, and every other row comes after each of them. */
  ghost predicate AreNearest(rows: seq<Hit>, k: nat, top: seq<Hit>) {
    && IsRanking(rows, top) && |top| == (if |rows| < k then |rows| else k)
    && forall h, t :: h in rows && h !in top && t in top ==>
         t.distance < h.distance || (t.distance == h.distance && StringLess(t.id, h.id))
  }

  /**
   The widening loop. `scan(fetch)` is the answer of the vector query for that `fetch`;
   the loop never asks twice with one `fetch`, so a function loses no behaviour.
   */
  method WidenedTop(scan: nat -> seq<Hit>, k: nat, ghost rows: seq<Hit>) returns (top: seq<Hit>, ghost fetched: nat)
    requires k >= 1 && DistinctIds(rows)
    requires forall fetch: nat :: IsScan(rows, fetch, scan(fetch))
    ensures Min(k + 1, MAX_SEARCH_FETCH) <= fetched <= MAX_SEARCH_FETCH
    ensures top == Take(Ranked(scan(fetched)), k)
    ensures fetched <= 4096 && (fetched < 4096 ==> !BoundaryTied(Ranked(scan(fetched)), k, fetched))
    ensures IsRanking(rows, top)
    ensures IsExact(rows, k) || (k <= MAX_SEARCH_FETCH && !BoundaryTied(Ranked(scan(fetched)), k, fetched)) ==>
      AreNearest(rows, k, top)
    ensures IsExact(rows, k) ==> top == Take(Ranked(rows), k)
    ensures fetched < MAX_SEARCH_FETCH ==> top == Take(Ranked(rows), k)
    ensures k <= MAX_SEARCH_FETCH && !BoundaryTied(Ranked(scan(fetched)), k, fetched) ==> top == Take(Ranked(rows), k)
    ensures k <= MAX_SEARCH_FETCH ==> SameDistances(top, Take(Ranked(rows), k))
  {
    var fetch := Min(k + 1, MAX_SEARCH_FETCH);
    var found := Ranked(scan(fetch));
    while fetch < MAX_SEARCH_FETCH && BoundaryTied(found, k, fetch)
      invariant Min(k + 1, MAX_SEARCH_FETCH) <= fetch <= MAX_SEARCH_FETCH
      invariant found == Ranked(scan(fetch))
      decreases MAX_SEARCH_FETCH - fetch
    {
      fetch := Min(fetch * 2, MAX_SEARCH_FETCH);
      found := Ranked(scan(fetch));
    }
    top := Take(found, k);
    fetched := fetch;
    if IsExact(rows, k) && fetched == MAX_SEARCH_FETCH {
      RoomyScanIsExact(rows, k, fetched, scan(fetched));
    }
    if k <= fetched && !BoundaryTied(found, k, fetched) {
      UntiedScanIsExact(rows, k, fetched, scan(fetched));
    }
    if k <= MAX_SEARCH_FETCH {
      ScanDistances(rows, k, fetched, scan(fetched));
    }
    ScanTopIsRanking(rows, fetched, scan(fetched), k);
    RankedTopIsNearest(rows, k);
  }

  /** Every row of the true top k has at most `fetch` rows of its partition as near as itself. */
  ghost predicate Roomy(rows: seq<Hit>, k: nat, fetch: nat) {
    forall x :: x in Take(Ranked(rows), k) ==> |PartitionWithin(rows, x.partition, x.distance)| <= fetch
  }

  ghost predicate IsExact(rows: seq<Hit>, k: nat) {
    Roomy(rows, k, MAX_SEARCH_FETCH)
  }

  ghost predicate SameDistances(a: seq<Hit>, b: seq<Hit>) {
    |a| == |b| && forall i :: 0 <= i < |a| ==> a[i].distance == b[i].distance
  }

  // -------------------------------------------------------- ranked lists

  lemma HitBeforeOrder(x: Hit, y: Hit)
    ensures HitBefore(x, y) || HitBefore(y, x) || (x.distance == y.distance && x.id == y.id)
    ensures !(HitBefore(x, y) && HitBefore(y, x))
    ensures !HitBefore(x, x)
  {
    StringLessTotal(x.id, y.id);
    StringLessTotal(x.id, x.id);
  }

  lemma HitBeforeIsStrictWeakOrder()
    ensures StrictWeakOrder(HitBefore)
  {
    forall x: Hit ensures !HitBefore(x, x) {
      HitBeforeOrder(x, x);
    }
    forall x: Hit, y: Hit, z: Hit | HitBefore(x, y) && HitBefore(y, z) ensures HitBefore(x, z) {
      if StringLess(x.id, y.id) && StringLess(y.id, z.id) {
        StringLessTransitive(x.id, y.id, z.id);
      }
    }
    forall x: Hit, y: Hit, z: Hit | HitBefore(x, z) ensures HitBefore(x, y) || HitBefore(y, z) {
      HitBeforeOrder(x, y);
      if HitBefore(y, x) && StringLess(y.id, x.id) && StringLess(x.id, z.id) {
        StringLessTransitive(y.id, x.id, z.id);
      }
    }
  }

  ghost predicate Strict(s: seq<Hit>) {
    forall i, j :: 0 <= i < j < |s| ==> HitBefore(s[i], s[j])
  }

  lemma RankedElements(hits: seq<Hit>)
    ensures forall h :: h in Ranked(hits) <==> h in hits
  {
    SortKeepsElements(hits, HitBefore);
    forall h ensures h in Ranked(hits) <==> h in hits {
      assert h in Ranked(hits) <==> h in multiset(Ranked(hits));
      assert h in hits <==> h in multiset(hits);
    }
  }

  lemma RankedIsStrict(hits: seq<Hit>)
    requires DistinctIds(hits)
    ensures Strict(Ranked(hits))
  {
    var s := Ranked(hits);
    HitBeforeIsStrictWeakOrder();
    SortSorts(hits, HitBefore);
    SortKeepsElements(hits, HitBefore);
    forall i, j | 0 <= i < j < |s| ensures HitBefore(s[i], s[j]) {
      RankedPair(hits, i, j);
    }
  }

  lemma RankedPair(hits: seq<Hit>, i: nat, j: nat)
    requires DistinctIds(hits) && i < j < |Ranked(hits)|
    requires Sorted(Ranked(hits), HitBefore) && multiset(Ranked(hits)) == multiset(hits)
    ensures HitBefore(Ranked(hits)[i], Ranked(hits)[j])
  {
    var s := Ranked(hits);
    HitBeforeOrder(s[i], s[j]);
    assert s[i] in multiset(hits) && s[j] in multiset(hits);
    assert s[i] in hits && s[j] in hits;
    if s[i] == s[j] {
      RepeatedElement(s, i, j);
      ListedOnce(hits, s[i]);
    }
  }

  /** Strict lists, one inside the other, agree as long as the larger one stays inside the smaller. */
  lemma {:induction false} PrefixesAgree(small: seq<Hit>, large: seq<Hit>, n: nat)
    requires Strict(small) && Strict(large) && n <= |small|
    requires forall h :: h in small ==> h in large
    requires forall i :: 0 <= i < n && i < |large| ==> large[i] in small
    ensures n <= |large| && small[..n] == large[..n]
  {
    if n > 0 {
      PrefixesAgree(small, large, n - 1);
      NextAgrees(small, large, n - 1);
      assert small[..n] == small[..n - 1] + [small[n - 1]];
      assert large[..n] == large[..n - 1] + [large[n - 1]];
    }
  }

  lemma NextAgrees(small: seq<Hit>, large: seq<Hit>, i: nat)
    requires Strict(small) && Strict(large) && i < |small| && i <= |large| && small[..i] == large[..i]
    requires forall h :: h in small ==> h in large
    requires i < |large| ==> large[i] in small
    ensures i < |large| && small[i] == large[i]
  {
    assert small[i] in large;
    var p :| 0 <= p < |large| && large[p] == small[i];
    if p < i {
      assert small[p] == large[..i][p];
      HitBeforeOrder(small[p], small[i]);
    }
    var q :| 0 <= q < |small| && small[q] == large[i];
    if q < i {
      assert large[q] == small[..i][q];
      HitBeforeOrder(large[q], large[i]);
    }
    HitBeforeOrder(small[i], large[i]);
  }

  /** The first k of the ranked rows are the k nearest ones. */
  lemma RankedTopIsNearest(rows: seq<Hit>, k: nat)
    requires DistinctIds(rows)
    ensures AreNearest(rows, k, Take(Ranked(rows), k))
  {
    var s := Ranked(rows);
    RankedIsStrict(rows);
    RankedElements(rows);
    forall h, t | h in rows && h !in Take(s, k) && t in Take(s, k)
      ensures t.distance < h.distance || (t.distance == h.distance && StringLess(t.id, h.id))
    {
      var p := BehindTop(s, k, h);
      var q :| 0 <= q < |Take(s, k)| && Take(s, k)[q] == t;
      assert HitBefore(s[q], s[p]);
    }
  }

  lemma BehindTop(s: seq<Hit>, k: nat, h: Hit) returns (p: nat)
    requires h in s && h !in Take(s, k)
    ensures k <= p < |s| && s[p] == h
  {
    assert s == s[..k] + s[k..];
    var i :| 0 <= i < |s[k..]| && s[k..][i] == h;
    p := k + i;
  }

  lemma ScanTopIsRanking(rows: seq<Hit>, fetch: nat, found: seq<Hit>, k: nat)
    requires IsScan(rows, fetch, found)
    ensures IsRanking(rows, Take(Ranked(found), k))
  {
    RankedIsStrict(found);
    RankedElements(found);
    forall i, j | 0 <= i < j < |Take(Ranked(found), k)|
      ensures HitBefore(Take(Ranked(found), k)[i], Take(Ranked(found), k)[j])
    {
    }
  }

  // --------------------------------------------------------- exactness

  lemma TopsAgree(small: seq<Hit>, large: seq<Hit>, k: nat)
    requires Strict(small) && Strict(large)
    requires forall h :: h in small ==> h in large
    requires forall i :: 0 <= i < k && i < |large| ==> large[i] in small
    ensures Take(small, k) == Take(large, k)
  {
    var n := if |small| < k then |small| else k;
    PrefixesAgree(small, large, n);
    if k <= |small| {
      SamePrefixSameTake(small, large, k);
    } else {
      assert small[..n] == small;
      if |small| < |large| {
        AllInside(small, large);
      }
      assert |large| == n ==> large[..n] == large;
    }
  }

  /** If a scan found every row of the true top k, its own top k is the true one. */
  lemma CompleteScanIsExact(rows: seq<Hit>, k: nat, fetch: nat, found: seq<Hit>)
    requires DistinctIds(rows) && IsScan(rows, fetch, found)
    requires forall x :: x in Take(Ranked(rows), k) ==> x in found
    ensures Take(Ranked(found), k) == Take(Ranked(rows), k)
  {
    var small, large := Ranked(found), Ranked(rows);
    RankedIsStrict(found);
    RankedIsStrict(rows);
    RankedElements(found);
    RankedElements(rows);
    forall i | 0 <= i < k && i < |large| ensures large[i] in small {
      assert large[i] == Take(large, k)[i];
    }
    TopsAgree(small, large, k);
  }

  lemma AllInside(small: seq<Hit>, large: seq<Hit>)
    requires Strict(large) && |small| < |large| && small == large[..|small|]
    ensures large[|small|] !in small
  {
    var n := |small|;
    if large[n] in small {
      var p :| 0 <= p < n && small[p] == large[n];
      assert large[p] == large[n];
      HitBeforeOrder(large[p], large[n]);
    }
  }

  lemma RoomyScanIsExact(rows: seq<Hit>, k: nat, fetch: nat, found: seq<Hit>)
    requires DistinctIds(rows) && IsScan(rows, fetch, found) && Roomy(rows, k, fetch)
    ensures Take(Ranked(found), k) == Take(Ranked(rows), k)
  {
    RankedElements(rows);
    forall x | x in Take(Ranked(rows), k) ensures x in found {
      if x !in found {
        var near := InPartition(found, x.partition);
        assert near + {x} <= PartitionWithin(rows, x.partition, x.distance);
        SubsetSize(near + {x}, PartitionWithin(rows, x.partition, x.distance));
      }
    }
    CompleteScanIsExact(rows, k, fetch, found);
  }

  lemma {:induction false} SubsetSize<T>(a: set<T>, b: set<T>)
    requires a <= b
    ensures |a| <= |b|
  {
    if a != {} {
      var x :| x in a;
      SubsetSize(a - {x}, b - {x});
    }
  }

  lemma {:induction false} CountIsSize(hits: seq<Hit>, d: real)
    requires DistinctIds(hits)
    ensures CountWithin(hits, d) == |Within(hits, d)|
  {
    if hits == [] {
      assert Within(hits, d) == {};
    } else {
      CountIsSize(hits[1..], d);
      WithinCons(hits, d);
    }
  }

  lemma WithinCons(hits: seq<Hit>, d: real)
    requires DistinctIds(hits) && hits != []
    ensures |Within(hits, d)| == |Within(hits[1..], d)| + if hits[0].distance <= d then 1 else 0
  {
    var h, rest := hits[0], hits[1..];
    assert hits == [h] + rest;
    assert h !in rest;
    assert Within(hits, d) == if h.distance <= d then Within(rest, d) + {h} else Within(rest, d);
  }

  lemma RankedCount(found: seq<Hit>, d: real)
    requires DistinctIds(found)
    ensures CountWithin(Ranked(found), d) == |Within(found, d)|
  {
    RankedIsStrict(found);
    RankedElements(found);
    StrictIsDistinct(Ranked(found), found);
    CountIsSize(Ranked(found), d);
    assert Within(Ranked(found), d) == Within(found, d);
  }

  lemma StrictIsDistinct(s: seq<Hit>, hits: seq<Hit>)
    requires Strict(s) && DistinctIds(hits) && forall h :: h in s ==> h in hits
    ensures DistinctIds(s)
  {
    forall i, j | 0 <= i < j < |s| ensures s[i].id != s[j].id {
      assert s[i] in hits && s[j] in hits;
      HitBeforeOrder(s[i], s[j]);
      HitBeforeOrder(s[i], s[i]);
      assert HitBefore(s[i], s[j]);
    }
  }

  /** The boundary is not tied, so no partition was cut off inside the tie: the scan is complete there. */
  lemma UntiedScanIsExact(rows: seq<Hit>, k: nat, fetch: nat, found: seq<Hit>)
    requires DistinctIds(rows) && IsScan(rows, fetch, found)
    requires 1 <= k <= fetch && !BoundaryTied(Ranked(found), k, fetch)
    ensures Take(Ranked(found), k) == Take(Ranked(rows), k)
  {
    var r := Ranked(found);
    if |r| < k {
      forall h | h in rows ensures h in found {
        if h !in found {
          SmallSet(found, InPartition(found, h.partition));
        }
      }
      RankedElements(rows);
      CompleteScanIsExact(rows, k, fetch, found);
    } else {
      var d := r[k - 1].distance;
      RankedCount(found, d);
      forall h | h in rows && h.distance <= d ensures h in found {
        if h !in found {
          SubsetSize(InPartition(found, h.partition), Within(found, d));
        }
      }
      NearRowsSuffice(rows, k, fetch, found);
    }
  }

  lemma {:induction false} SmallSet(hits: seq<Hit>, s: set<Hit>)
    requires forall h :: h in s ==> h in hits
    ensures |s| <= |hits|
  {
    if hits == [] {
      assert s == {};
    } else {
      SmallSet(hits[1..], s - {hits[0]});
    }
  }

  lemma NearRowsSuffice(rows: seq<Hit>, k: nat, fetch: nat, found: seq<Hit>)
    requires DistinctIds(rows) && IsScan(rows, fetch, found)
    requires 1 <= k <= |Ranked(found)|
    requires forall h :: h in rows && h.distance <= Ranked(found)[k - 1].distance ==> h in found
    ensures Take(Ranked(found), k) == Take(Ranked(rows), k)
  {
    var small, large := Ranked(found), Ranked(rows);
    RankedIsStrict(found);
    RankedIsStrict(rows);
    RankedElements(found);
    RankedElements(rows);
    NearPrefixesAgree(small, large, k);
  }

  lemma NearPrefixesAgree(small: seq<Hit>, large: seq<Hit>, k: nat)
    requires Strict(small) && Strict(large) && 1 <= k <= |small|
    requires forall h :: h in small ==> h in large
    requires forall h :: h in large && h.distance <= small[k - 1].distance ==> h in small
    ensures Take(small, k) == Take(large, k)
  {
    var d := small[k - 1].distance;
    DistancesAscend(small, k);
    PrefixesAgreeWithin(small, large, k, d);
    SamePrefixSameTake(small, large, k);
  }

  lemma SamePrefixSameTake(a: seq<Hit>, b: seq<Hit>, k: nat)
    requires k <= |a| && k <= |b| && a[..k] == b[..k]
    ensures Take(a, k) == Take(b, k)
  {
    assert |a| == k ==> a[..k] == a;
    assert |b| == k ==> b[..k] == b;
  }

  lemma DistancesAscend(s: seq<Hit>, k: nat)
    requires Strict(s) && 1 <= k <= |s|
    ensures forall i :: 0 <= i < k ==> s[i].distance <= s[k - 1].distance
  {
    assert forall i :: 0 <= i < k - 1 ==> HitBefore(s[i], s[k - 1]);
  }

  lemma {:induction false} PrefixesAgreeWithin(small: seq<Hit>, large: seq<Hit>, n: nat, d: real)
    requires Strict(small) && Strict(large) && n <= |small|
    requires forall h :: h in small ==> h in large
    requires forall h :: h in large && h.distance <= d ==> h in small
    requires forall i :: 0 <= i < n ==> small[i].distance <= d
    ensures n <= |large| && small[..n] == large[..n]
  {
    if n > 0 {
      PrefixesAgreeWithin(small, large, n - 1, d);
      var i := n - 1;
      NotBehind(small, large, i);
      NextAgrees(small, large, i);
      assert small[..n] == small[..i] + [small[i]];
      assert large[..n] == large[..i] + [large[i]];
    }
  }

  /** The next element of the larger list is not farther than that of the smaller one. */
  lemma NotBehind(small: seq<Hit>, large: seq<Hit>, i: nat)
    requires Strict(small) && Strict(large) && i < |small| && i <= |large| && small[..i] == large[..i]
    requires forall h :: h in small ==> h in large
    ensures i < |large| && large[i].distance <= small[i].distance
  {
    assert small[i] in large;
    var p :| 0 <= p < |large| && large[p] == small[i];
    if p < i {
      assert small[p] == large[..i][p];
      HitBeforeOrder(small[p], small[i]);
    }
    assert p > i ==> HitBefore(large[i], large[p]);
  }

  // ---------------------------------------------------------- distances

  lemma {:induction false} PrefixSize(s: seq<Hit>, n: nat)
    requires Strict(s) && n <= |s|
    ensures |Elements(s[..n])| == n
  {
    if n == 0 {
      assert Elements(s[..0]) == {};
    } else {
      PrefixSize(s, n - 1);
      AllInside(s[..n - 1], s);
      assert s[..n] == s[..n - 1] + [s[n - 1]];
      assert Elements(s[..n]) == Elements(s[..n - 1]) + {s[n - 1]};
    }
  }

  /** In a ranked list the i-th distance is at most `d` exactly when more than i hits are within `d`. */
  lemma DistanceByCount(s: seq<Hit>, i: nat, d: real)
    requires Strict(s)
    ensures |Within(s, d)| > i <==> i < |s| && s[i].distance <= d
  {
    if i < |s| && s[i].distance <= d {
      forall h | h in s[..i + 1] ensures h in Within(s, d) {
        var p :| 0 <= p < i + 1 && s[p] == h;
        assert p < i ==> HitBefore(s[p], s[i]);
      }
      PrefixSize(s, i + 1);
      SubsetSize(Elements(s[..i + 1]), Within(s, d));
    } else {
      var n := if i < |s| then i else |s|;
      forall h | h in Within(s, d) ensures h in s[..n] {
        var p :| 0 <= p < |s| && s[p] == h;
        assert p > i ==> HitBefore(s[i], s[p]);
      }
      PrefixSize(s, n);
      SubsetSize(Within(s, d), Elements(s[..n]));
    }
  }

  /** Ties or not, a scan of at least k rows per partition gets the k distances right. */
  lemma ScanDistances(rows: seq<Hit>, k: nat, fetch: nat, found: seq<Hit>)
    requires DistinctIds(rows) && IsScan(rows, fetch, found) && 1 <= k <= fetch
    ensures SameDistances(Take(Ranked(found), k), Take(Ranked(rows), k))
  {
    var r, a := Ranked(found), Ranked(rows);
    if |r| < k {
      FoundReaches(rows, k, fetch, found, |r|);
    }
    if |a| < k {
      RowsReach(rows, fetch, found, |a|);
    }
    assert |Take(r, k)| == |Take(a, k)|;
    forall i | 0 <= i < |Take(r, k)| ensures Take(r, k)[i].distance == Take(a, k)[i].distance {
      FoundReaches(rows, k, fetch, found, i);
      RowsReach(rows, fetch, found, i);
    }
  }

  lemma FoundReaches(rows: seq<Hit>, k: nat, fetch: nat, found: seq<Hit>, i: nat)
    requires DistinctIds(rows) && IsScan(rows, fetch, found) && i < k <= fetch
    ensures i < |Ranked(rows)| ==> i < |Ranked(found)| && Ranked(found)[i].distance <= Ranked(rows)[i].distance
  {
    var r, a := Ranked(found), Ranked(rows);
    RankedIsStrict(found);
    RankedIsStrict(rows);
    RankedElements(found);
    RankedElements(rows);
    if i < |a| {
      var d := a[i].distance;
      DistanceByCount(a, i, d);
      DistanceByCount(r, i, d);
      assert Within(a, d) == Within(rows, d) && Within(r, d) == Within(found, d);
      if Within(rows, d) <= Within(found, d) {
        SubsetSize(Within(rows, d), Within(found, d));
      } else {
        var h :| h in Within(rows, d) && h !in Within(found, d);
        SubsetSize(InPartition(found, h.partition), Within(found, d));
      }
    }
  }

  lemma RowsReach(rows: seq<Hit>, fetch: nat, found: seq<Hit>, i: nat)
    requires DistinctIds(rows) && IsScan(rows, fetch, found)
    ensures i < |Ranked(found)| ==> i < |Ranked(rows)| && Ranked(rows)[i].distance <= Ranked(found)[i].distance
  {
    var r, a := Ranked(found), Ranked(rows);
    RankedIsStrict(found);
    RankedIsStrict(rows);
    RankedElements(found);
    RankedElements(rows);
    if i < |r| {
      var d := r[i].distance;
      DistanceByCount(a, i, d);
      DistanceByCount(r, i, d);
      SubsetSize(Within(r, d), Within(a, d));
    }
  }

  // ------------------------------------------------- the condition is exact

  /** A scan that takes the ranked rows in turn, as long as their partition has room. */
  function TakePerPartition(ranked: seq<Hit>, fetch: nat): (kept: seq<Hit>)
    ensures forall h :: h in kept ==> h in ranked
  {
    if ranked == [] then []
    else
      var before := TakePerPartition(ranked[..|ranked| - 1], fetch);
      var h := ranked[|ranked| - 1];
      if |InPartition(before, h.partition)| < fetch then before + [h] else before
  }

  /** All that has to hold of the rows kept from a ranked prefix. */
  ghost predicate FairlyKept(ranked: seq<Hit>, fetch: nat, kept: seq<Hit>) {
    && Strict(kept)
    && (forall h :: h in kept ==> h in ranked)
    && (forall p :: |InPartition(kept, p)| <= fetch)
    && (forall h :: h in ranked && h !in kept ==> LeftOutFairly(fetch, kept, h))
  }

  lemma {:induction false} TakePerPartitionIsFair(ranked: seq<Hit>, fetch: nat)
    requires Strict(ranked)
    ensures FairlyKept(ranked, fetch, TakePerPartition(ranked, fetch))
  {
    if ranked == [] {
      assert forall p :: InPartition([], p) == {};
    } else {
      var n := |ranked| - 1;
      TakePerPartitionIsFair(ranked[..n], fetch);
      OneMoreIsFair(ranked, fetch, TakePerPartition(ranked[..n], fetch));
    }
  }

  lemma LastIsFarthest(ranked: seq<Hit>, h: Hit)
    requires Strict(ranked) && ranked != [] && h in ranked[..|ranked| - 1]
    ensures HitBefore(h, ranked[|ranked| - 1])
  {
    var p :| 0 <= p < |ranked| - 1 && ranked[p] == h;
  }

  lemma OneMoreIsFair(ranked: seq<Hit>, fetch: nat, before: seq<Hit>)
    requires Strict(ranked) && ranked != []
    requires FairlyKept(ranked[..|ranked| - 1], fetch, before)
    ensures var h := ranked[|ranked| - 1];
      FairlyKept(ranked, fetch, if |InPartition(before, h.partition)| < fetch then before + [h] else before)
  {
    var h := ranked[|ranked| - 1];
    assert ranked == ranked[..|ranked| - 1] + [h];
    if |InPartition(before, h.partition)| < fetch {
      KeepIsFair(ranked[..|ranked| - 1], ranked, fetch, before, h);
    } else {
      forall r | r in InPartition(before, h.partition) ensures r.distance <= h.distance {
        LastIsFarthest(ranked, r);
      }
    }
  }

  lemma KeepIsFair(init: seq<Hit>, ranked: seq<Hit>, fetch: nat, before: seq<Hit>, h: Hit)
    requires Strict(ranked) && ranked == init + [h]
    requires FairlyKept(init, fetch, before) && |InPartition(before, h.partition)| < fetch
    ensures FairlyKept(ranked, fetch, before + [h])
  {
    var kept := before + [h];
    forall i, j | 0 <= i < j < |kept| ensures HitBefore(kept[i], kept[j]) {
      if j == |before| {
        assert kept[i] in init;
        LastIsFarthest(ranked, kept[i]);
      }
    }
    forall p ensures |InPartition(kept, p)| <= fetch {
      KeptPartition(before, h, p);
    }
    forall x | x in ranked && x !in kept ensures LeftOutFairly(fetch, kept, x) {
      assert x in init && x !in before;
      KeptPartition(before, h, x.partition);
      assert LeftOutFairly(fetch, before, x);
      assert h.partition != x.partition;
    }
  }

  lemma KeptPartition(before: seq<Hit>, h: Hit, p: string)
    ensures InPartition(before + [h], p)
         == if h.partition == p then InPartition(before, p) + {h} else InPartition(before, p)
  {
  }

  /** If a partition of `s` has `fetch` rows within `d`, nothing farther is kept from it. */
  lemma {:induction false} KeptAreNear(ranked: seq<Hit>, fetch: nat, partition: string, d: real)
    requires Strict(ranked) && |PartitionWithin(ranked, partition, d)| >= fetch
    ensures var kept := InPartition(TakePerPartition(ranked, fetch), partition);
      |kept| >= fetch && forall r :: r in kept ==> r.distance <= d
    decreases ranked, 1
  {
    var kept := TakePerPartition(ranked, fetch);
    TakePerPartitionIsFair(ranked, fetch);
    forall r | r in InPartition(kept, partition) ensures r.distance <= d {
      if r.distance > d {
        FarRowIsNotKept(ranked, fetch, r, d);
      }
    }
    KeptIsFull(ranked, fetch, kept, partition, d);
  }

  lemma KeptIsFull(ranked: seq<Hit>, fetch: nat, kept: seq<Hit>, partition: string, d: real)
    requires FairlyKept(ranked, fetch, kept)
    requires |PartitionWithin(ranked, partition, d)| >= fetch
    ensures |InPartition(kept, partition)| >= fetch
  {
    var near := PartitionWithin(ranked, partition, d);
    if near <= InPartition(kept, partition) {
      SubsetSize(near, InPartition(kept, partition));
    } else {
      var h :| h in near && h !in InPartition(kept, partition);
      assert LeftOutFairly(fetch, kept, h);
    }
  }

  lemma {:induction false} FarRowIsNotKept(ranked: seq<Hit>, fetch: nat, r: Hit, d: real)
    requires Strict(ranked) && r.distance > d
    requires |PartitionWithin(ranked, r.partition, d)| >= fetch
    ensures r !in TakePerPartition(ranked, fetch)
    decreases ranked, 0
  {
    if ranked != [] {
      var n := |ranked| - 1;
      var h := ranked[n];
      assert ranked == ranked[..n] + [h];
      if h == r {
        assert PartitionWithin(ranked, r.partition, d) == PartitionWithin(ranked[..n], r.partition, d);
        KeptAreNear(ranked[..n], fetch, r.partition, d);
        if r in ranked[..n] {
          LastIsFarthest(ranked, r);
          HitBeforeOrder(r, r);
        }
      } else if h.distance <= d {
        if r in ranked[..n] {
          LastIsFarthest(ranked, r);
        }
      } else {
        assert PartitionWithin(ranked, r.partition, d) == PartitionWithin(ranked[..n], r.partition, d);
        FarRowIsNotKept(ranked[..n], fetch, r, d);
      }
    }
  }

  /** The ranked rows without the i-th. */
  lemma WithoutOne(rows: seq<Hit>, i: nat) returns (rest: seq<Hit>)
    requires DistinctIds(rows) && i < |Ranked(rows)|
    ensures Strict(rest) && forall h :: h in rest <==> h in rows && h != Ranked(rows)[i]
  {
    var s := Ranked(rows);
    RankedIsStrict(rows);
    RankedElements(rows);
    rest := s[..i] + s[i + 1..];
    forall h ensures h in rest <==> h in s && h != s[i] {
      if h in rest {
        RestAvoids(s, i, h);
      }
    }
  }

  lemma RestAvoids(s: seq<Hit>, i: nat, h: Hit)
    requires Strict(s) && i < |s| && h in s[..i] + s[i + 1..]
    ensures h in s && h != s[i]
  {
    HitBeforeOrder(h, h);
    if h in s[..i] {
      var p :| 0 <= p < i && s[p] == h;
      assert HitBefore(s[p], s[i]);
    } else {
      var p :| i + 1 <= p < |s| && s[p] == h;
      assert HitBefore(s[i], s[p]);
    }
  }

  /** A crowded partition can lose a row of the true top k. */
  lemma CrowdedScanLosesRow(rows: seq<Hit>, k: nat, fetch: nat, i: nat) returns (found: seq<Hit>)
    requires DistinctIds(rows) && i < k && i < |Ranked(rows)|
    requires var x := Ranked(rows)[i]; |PartitionWithin(rows, x.partition, x.distance)| > fetch
    ensures IsScan(rows, fetch, found) && Take(Ranked(found), k) != Take(Ranked(rows), k)
  {
    var x := Ranked(rows)[i];
    var rest := WithoutOne(rows, i);
    found := TakePerPartition(rest, fetch);
    TakePerPartitionIsFair(rest, fetch);
    RankedElements(rows);
    StrictIsDistinct(found, rows);
    assert PartitionWithin(rest, x.partition, x.distance) == PartitionWithin(rows, x.partition, x.distance) - {x};
    KeptAreNear(rest, fetch, x.partition, x.distance);
    assert LeftOutFairly(fetch, found, x);
    RankedElements(found);
    assert Take(Ranked(rows), k)[i] == x && x !in Ranked(found);
  }

  /**
   Every scan with this `fetch` yields the true top k exactly when no row of the true top k
   lies in a partition with more than `fetch` rows as near as it.
   */
  lemma ExactForEveryScan(rows: seq<Hit>, k: nat, fetch: nat)
    requires DistinctIds(rows)
    ensures Roomy(rows, k, fetch)
      <==> forall found :: IsScan(rows, fetch, found) ==> Take(Ranked(found), k) == Take(Ranked(rows), k)
  {
    if Roomy(rows, k, fetch) {
      forall found | IsScan(rows, fetch, found) ensures Take(Ranked(found), k) == Take(Ranked(rows), k) {
        RoomyScanIsExact(rows, k, fetch, found);
      }
    } else {
      var x :| x in Take(Ranked(rows), k) && |PartitionWithin(rows, x.partition, x.distance)| > fetch;
      var i :| 0 <= i < |Take(Ranked(rows), k)| && Take(Ranked(rows), k)[i] == x;
      var found := CrowdedScanLosesRow(rows, k, fetch, i);
    }
  }

  lemma ManyRows(rows: seq<Hit>, partition: string, d: real, n: nat)
    requires DistinctIds(rows) && |PartitionWithin(rows, partition, d)| > n
    ensures |Ranked(rows)| > n
  {
    SmallSet(rows, PartitionWithin(rows, partition, d));
  }

  /** While a row of the true top k is crowded out, every scan below the cap shows a tie. */
  lemma CrowdedIsTied(rows: seq<Hit>, k: nat, i: nat, fetch: nat, found: seq<Hit>)
    requires DistinctIds(rows) && i < k < fetch && i < |Ranked(rows)| && IsScan(rows, fetch, found)
    requires var x := Ranked(rows)[i]; |PartitionWithin(rows, x.partition, x.distance)| > fetch
    ensures BoundaryTied(Ranked(found), k, fetch)
  {
    var x := Ranked(rows)[i];
    var near := PartitionWithin(rows, x.partition, x.distance);
    ManyRows(rows, x.partition, x.distance, k);
    FoundReaches(rows, k, fetch, found, k - 1);
    RowsReach(rows, fetch, found, k - 1);
    var d := Ranked(found)[k - 1].distance;
    RankedIsStrict(rows);
    DistancesAscend(Ranked(rows), k);
    assert x.distance <= d;
    if near <= InPartition(found, x.partition) {
      SubsetSize(near, InPartition(found, x.partition));
    }
    var h :| h in near && h !in found;
    SubsetSize(InPartition(found, x.partition), Within(found, d));
    RankedCount(found, d);
  }

  /** How the widening loop can end. */
  ghost predicate Ends(scan: nat -> seq<Hit>, k: nat, fetched: nat, top: seq<Hit>)
    requires k >= 1
  {
    && Min(k + 1, MAX_SEARCH_FETCH) <= fetched <= MAX_SEARCH_FETCH
    && (fetched == MAX_SEARCH_FETCH || !BoundaryTied(Ranked(scan(fetched)), k, fetched))
    && top == Take(Ranked(scan(fetched)), k)
  }

  /** Outside that condition the store may answer so that the search ends with the wrong rows. */
  lemma CrowdedSearchCanFail(rows: seq<Hit>, k: nat) returns (scan: nat -> seq<Hit>)
    requires DistinctIds(rows) && k >= 1 && !IsExact(rows, k)
    ensures forall fetch: nat :: IsScan(rows, fetch, scan(fetch))
    ensures forall fetched, top :: Ends(scan, k, fetched, top) ==> top != Take(Ranked(rows), k)
  {
    var x :| x in Take(Ranked(rows), k) && |PartitionWithin(rows, x.partition, x.distance)| > MAX_SEARCH_FETCH;
    var i :| 0 <= i < |Take(Ranked(rows), k)| && Take(Ranked(rows), k)[i] == x;
    var bad := CrowdedScanLosesRow(rows, k, MAX_SEARCH_FETCH, i);
    scan := (fetch: nat) => if fetch == MAX_SEARCH_FETCH then bad else TakePerPartition(Ranked(rows), fetch);
    forall fetch: nat ensures IsScan(rows, fetch, scan(fetch)) {
      if fetch != MAX_SEARCH_FETCH {
        PlainScan(rows, fetch);
      }
    }
    forall fetched, top | Ends(scan, k, fetched, top) ensures top != Take(Ranked(rows), k) {
      if fetched != MAX_SEARCH_FETCH {
        CrowdedIsTied(rows, k, i, fetched, scan(fetched));
      }
    }
  }

  lemma PlainScan(rows: seq<Hit>, fetch: nat)
    requires DistinctIds(rows)
    ensures IsScan(rows, fetch, TakePerPartition(Ranked(rows), fetch))
  {
    RankedIsStrict(rows);
    RankedElements(rows);
    TakePerPartitionIsFair(Ranked(rows), fetch);
    StrictIsDistinct(TakePerPartition(Ranked(rows), fetch), rows);
  }

  // ------------------------------------------------------ such rows exist

  /** `n` rows of one partition, all equally far away. */
  function Crowd(n: nat): (rows: seq<Hit>)
    ensures |rows| == n
  {
    seq(n, i requires 0 <= i => Hit(seq(i, _ => 'a'), 0.0, "default"))
  }

  lemma CrowdIsDistinct(n: nat)
    ensures DistinctIds(Crowd(n))
  {
    forall i, j | 0 <= i < j < n ensures Crowd(n)[i].id != Crowd(n)[j].id {
      assert |Crowd(n)[i].id| == i && |Crowd(n)[j].id| == j;
    }
  }

  lemma {:induction false} DistinctSize(hits: seq<Hit>)
    requires DistinctIds(hits)
    ensures |Elements(hits)| == |hits|
  {
    if hits == [] {
      assert Elements(hits) == {};
    } else {
      DistinctSize(hits[1..]);
      assert hits == [hits[0]] + hits[1..];
      assert hits[0] !in hits[1..];
      assert Elements(hits) == {hits[0]} + Elements(hits[1..]);
    }
  }

  /** One row more than the cap at one distance, in one partition: no search for them is exact. */
  lemma CrowdIsNotExact(k: nat)
    requires k >= 1
    ensures DistinctIds(Crowd(MAX_SEARCH_FETCH + 1)) && !IsExact(Crowd(MAX_SEARCH_FETCH + 1), k)
  {
    var n := MAX_SEARCH_FETCH + 1;
    CrowdIsDistinct(n);
    RankedElements(Crowd(n));
    var x := Take(Ranked(Crowd(n)), k)[0];
    assert x in Crowd(n);
    AllAreNear(n, x);
  }

  lemma AllAreNear(n: nat, x: Hit)
    requires x in Crowd(n)
    ensures |PartitionWithin(Crowd(n), x.partition, x.distance)| == n
  {
    CrowdIsDistinct(n);
    DistinctSize(Crowd(n));
    assert PartitionWithin(Crowd(n), x.partition, x.distance) == Elements(Crowd(n));
  }
}
