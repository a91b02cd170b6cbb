/**
 Sorting and string order, as the JavaScript runtime gives them: `Array.prototype.sort`
 is a stable sort, and `<` on strings compares code units from the left.
 */
module Ordering {

  // ---------------------------------------------------------------- orders

  /** What a comparator must be for a sort to make sense: a strict weak order. */
  ghost predicate StrictWeakOrder<T(!new)>(less: (T, T) -> bool) {
    && (forall x :: !less(x, x))
    && (forall x, y, z :: less(x, y) && less(y, z) ==> less(x, z))
    && (forall x, y, z :: less(x, z) ==> less(x, y) || less(y, z))
  }

  /** Two different elements of `xs` are never tied. */
  ghost predicate Untied<T(!new)>(xs: multiset<T>, less: (T, T) -> bool) {
    forall x, y :: x in xs && y in xs && x != y ==> less(x, y) || less(y, x)
  }

  ghost predicate Sorted<T(!new)>(xs: seq<T>, less: (T, T) -> bool) {
    forall i, j :: 0 <= i < j < |xs| ==> !less(xs[j], xs[i])
  }

  // --------------------------------------------------------------- sorting

  /** Insert behind every element that is not greater: ties keep their order. */
  function Insert<T>(ys: seq<T>, x: T, less: (T, T) -> bool): (r: seq<T>)
    ensures |r| == |ys| + 1
  {
    if ys == [] || less(x, ys[0]) then [x] + ys else [ys[0]] + Insert(ys[1..], x, less)
  }

  /** The stable sort of `xs`. */
  function Sort<T>(xs: seq<T>, less: (T, T) -> bool): (r: seq<T>)
    ensures |r| == |xs|
  {
    if xs == [] then [] else Insert(Sort(xs[..|xs| - 1], less), xs[|xs| - 1], less)
  }

  lemma {:induction false} InsertKeepsElements<T>(ys: seq<T>, x: T, less: (T, T) -> bool)
    ensures multiset(Insert(ys, x, less)) == multiset(ys) + multiset{x}
  {
    if ys != [] && !less(x, ys[0]) {
      InsertKeepsElements(ys[1..], x, less);
      assert ys == [ys[0]] + ys[1..];
    }
  }

  lemma {:induction false} SortKeepsElements<T>(xs: seq<T>, less: (T, T) -> bool)
    ensures multiset(Sort(xs, less)) == multiset(xs)
  {
    if xs != [] {
      var n := |xs| - 1;
      SortKeepsElements(xs[..n], less);
      InsertKeepsElements(Sort(xs[..n], less), xs[n], less);
      assert xs == xs[..n] + [xs[n]];
    }
  }

  lemma {:induction false} InsertSorts<T(!new)>(ys: seq<T>, x: T, less: (T, T) -> bool)
    requires StrictWeakOrder(less) && Sorted(ys, less)
    ensures Sorted(Insert(ys, x, less), less)
  {
    if ys != [] && !less(x, ys[0]) {
      var rest := Insert(ys[1..], x, less);
      InsertSorts(ys[1..], x, less);
      InsertKeepsElements(ys[1..], x, less);
      forall j | 0 <= j < |rest| ensures !less(rest[j], ys[0]) {
        assert rest[j] in multiset(rest);
        assert rest[j] == x || rest[j] in ys[1..];
      }
    }
  }

  lemma {:induction false} SortSorts<T(!new)>(xs: seq<T>, less: (T, T) -> bool)
    requires StrictWeakOrder(less)
    ensures Sorted(Sort(xs, less), less)
  {
    if xs != [] {
      SortSorts(xs[..|xs| - 1], less);
      InsertSorts(Sort(xs[..|xs| - 1], less), xs[|xs| - 1], less);
    }
  }

  lemma SortedSameHead<T(!new)>(a: seq<T>, b: seq<T>, less: (T, T) -> bool)
    requires multiset(a) == multiset(b) && a != []
    requires Sorted(a, less) && Sorted(b, less) && Untied(multiset(a), less)
    ensures b != [] && a[0] == b[0]
  {
    assert a[0] in multiset(b);
    var i :| 0 <= i < |b| && b[i] == a[0];
    assert b[0] in multiset(a);
    var j :| 0 <= j < |a| && a[j] == b[0];
  }

  lemma TailElements<T>(a: seq<T>)
    requires a != []
    ensures multiset(a[1..]) == multiset(a) - multiset{a[0]}
  {
    assert a == [a[0]] + a[1..];
  }

  /** Sorted lists of the same untied elements are the same list. */
  lemma {:induction false} SortedUnique<T(!new)>(a: seq<T>, b: seq<T>, less: (T, T) -> bool)
    requires multiset(a) == multiset(b)
    requires Sorted(a, less) && Sorted(b, less) && Untied(multiset(a), less)
    ensures a == b
  {
    if a == [] {
      assert |multiset(a)| == |multiset(b)| == |b|;
    } else {
      SortedSameHead(a, b, less);
      SortedTail(a, less);
      SortedTail(b, less);
      SortedUnique(a[1..], b[1..], less);
      SameHeadAndTail(a, b);
    }
  }

  lemma SameHeadAndTail<T>(a: seq<T>, b: seq<T>)
    requires a != [] && b != [] && a[0] == b[0] && a[1..] == b[1..]
    ensures a == b
  {
    assert a == [a[0]] + a[1..] && b == [b[0]] + b[1..];
  }

  lemma SortedTail<T(!new)>(a: seq<T>, less: (T, T) -> bool)
    requires a != [] && Sorted(a, less)
    ensures Sorted(a[1..], less) && multiset(a[1..]) == multiset(a) - multiset{a[0]}
    ensures Untied(multiset(a), less) ==> Untied(multiset(a[1..]), less)
  {
    TailElements(a);
  }

  /** The elements that are tied with `x`, in their order. */
  function TiedWith<T>(xs: seq<T>, x: T, less: (T, T) -> bool): seq<T> {
    if xs == [] then []
    else
      var last := xs[|xs| - 1];
      TiedWith(xs[..|xs| - 1], x, less) + if !less(last, x) && !less(x, last) then [last] else []
  }

  lemma {:induction false} TiedWithSplits<T>(a: seq<T>, b: seq<T>, x: T, less: (T, T) -> bool)
    ensures TiedWith(a + b, x, less) == TiedWith(a, x, less) + TiedWith(b, x, less)
  {
    if b == [] {
      assert a + b == a;
    } else {
      TiedWithSplits(a, b[..|b| - 1], x, less);
      assert (a + b)[..|a + b| - 1] == a + b[..|b| - 1];
    }
  }

  /** An element tied with `x` has nothing tied with `x` behind a greater one. */
  lemma {:induction false} NoneTied<T(!new)>(ys: seq<T>, y: T, x: T, less: (T, T) -> bool)
    requires StrictWeakOrder(less) && !less(y, x) && !less(x, y)
    requires forall z :: z in ys ==> less(y, z)
    ensures TiedWith(ys, x, less) == []
  {
    if ys != [] {
      NoneTied(ys[..|ys| - 1], y, x, less);
      assert less(y, ys[|ys| - 1]);
    }
  }

  lemma AllBehind<T(!new)>(ys: seq<T>, y: T, less: (T, T) -> bool)
    requires StrictWeakOrder(less) && Sorted(ys, less) && ys != [] && less(y, ys[0])
    ensures forall z :: z in ys ==> less(y, z)
  {
    forall j | 0 <= j < |ys| ensures less(y, ys[j]) {
      assert j > 0 ==> !less(ys[j], ys[0]);
    }
  }

  lemma {:induction false} InsertIsStable<T(!new)>(ys: seq<T>, y: T, x: T, less: (T, T) -> bool)
    requires StrictWeakOrder(less) && Sorted(ys, less)
    ensures TiedWith(Insert(ys, y, less), x, less) == TiedWith(ys + [y], x, less)
  {
    if ys == [] {
    } else if less(y, ys[0]) {
      FrontIsStable(ys, y, x, less);
    } else {
      InsertIsStable(ys[1..], y, x, less);
      BehindIsStable(ys, y, x, less);
    }
  }

  lemma BehindIsStable<T>(ys: seq<T>, y: T, x: T, less: (T, T) -> bool)
    requires ys != [] && !less(y, ys[0])
    requires TiedWith(Insert(ys[1..], y, less), x, less) == TiedWith(ys[1..] + [y], x, less)
    ensures TiedWith(Insert(ys, y, less), x, less) == TiedWith(ys + [y], x, less)
  {
    TiedWithSplits([ys[0]], Insert(ys[1..], y, less), x, less);
    TiedWithSplits([ys[0]], ys[1..] + [y], x, less);
    assert [ys[0]] + (ys[1..] + [y]) == ys + [y];
  }

  lemma FrontIsStable<T(!new)>(ys: seq<T>, y: T, x: T, less: (T, T) -> bool)
    requires StrictWeakOrder(less) && Sorted(ys, less) && ys != [] && less(y, ys[0])
    ensures TiedWith([y] + ys, x, less) == TiedWith(ys + [y], x, less)
  {
    TiedWithSplits([y], ys, x, less);
    TiedWithSplits(ys, [y], x, less);
    AllBehind(ys, y, less);
    if !less(y, x) && !less(x, y) {
      NoneTied(ys, y, x, less);
    }
  }

  /** The sort is stable: tied elements keep their order. */
  lemma {:induction false} SortIsStable<T(!new)>(xs: seq<T>, x: T, less: (T, T) -> bool)
    requires StrictWeakOrder(less)
    ensures TiedWith(Sort(xs, less), x, less) == TiedWith(xs, x, less)
  {
    if xs != [] {
      var n := |xs| - 1;
      SortIsStable(xs[..n], x, less);
      SortSorts(xs[..n], less);
      InsertIsStable(Sort(xs[..n], less), xs[n], x, less);
      TiedWithSplits(Sort(xs[..n], less), [xs[n]], x, less);
    }
  }

  /** Sorting forgets the order of its input when no two elements are tied. */
  lemma SortIgnoresInputOrder<T(!new)>(a: seq<T>, b: seq<T>, less: (T, T) -> bool)
    requires StrictWeakOrder(less)
    requires multiset(a) == multiset(b) && Untied(multiset(a), less)
    ensures Sort(a, less) == Sort(b, less)
  {
    SortSorts(a, less);
    SortSorts(b, less);
    SortKeepsElements(a, less);
    SortKeepsElements(b, less);
    SortedUnique(Sort(a, less), Sort(b, less), less);
  }

  // ----------------------------------------------------------- repetition

  ghost predicate NoRepeats<T>(xs: seq<T>) {
    forall i, j :: 0 <= i < j < |xs| ==> xs[i] != xs[j]
  }

  lemma {:induction false} ListedOnce<T>(xs: seq<T>, x: T)
    requires NoRepeats(xs)
    ensures multiset(xs)[x] == if x in xs then 1 else 0
  {
    if xs != [] {
      ListedOnce(xs[1..], x);
      assert xs == [xs[0]] + xs[1..];
      if xs[0] == x {
        assert x !in xs[1..];
      }
    }
  }

  lemma {:induction false} CountOfDistinct<T>(xs: seq<T>)
    requires NoRepeats(xs)
    ensures |(set x | x in xs)| == |xs|
  {
    if xs != [] {
      var n := |xs| - 1;
      CountOfDistinct(xs[..n]);
      assert (set x | x in xs) == (set x | x in xs[..n]) + {xs[n]};
    }
  }

  lemma RepeatedElement<T>(b: seq<T>, i: nat, j: nat)
    requires i < j < |b| && b[i] == b[j]
    ensures multiset(b)[b[i]] >= 2
  {
    assert b == b[..j] + b[j..];
    assert b[i] in b[..j] && b[j..][0] == b[j];
  }

  // --------------------------------------------------------------- strings

  /** `a < b` on JavaScript strings. */
  predicate StringLess(a: string, b: string) {
    if b == [] then false
    else if a == [] then true
    else a[0] < b[0] || (a[0] == b[0] && StringLess(a[1..], b[1..]))
  }

  lemma {:induction false} StringLessTransitive(a: string, b: string, c: string)
    requires StringLess(a, b) && StringLess(b, c)
    ensures StringLess(a, c)
  {
    if a != [] && b != [] && c != [] && a[0] == b[0] == c[0] {
      StringLessTransitive(a[1..], b[1..], c[1..]);
    }
  }

  lemma {:induction false} StringLessTotal(a: string, b: string)
    ensures StringLess(a, b) || StringLess(b, a) || a == b
    ensures !(StringLess(a, b) && StringLess(b, a))
    ensures a == b ==> !StringLess(a, b)
  {
    if a != [] && b != [] && a[0] == b[0] {
      StringLessTotal(a[1..], b[1..]);
      assert a == [a[0]] + a[1..] && b == [b[0]] + b[1..];
    }
  }

  /** The strings part at position `k`: there `a` ends or has the smaller character. */
  predicate PartsAt(a: string, b: string, k: nat) {
    && k <= |a| && k < |b| && a[..k] == b[..k]
    && (k == |a| || a[k] < b[k])
  }

  /** The order of JavaScript strings: by the first difference, and a prefix before what it begins. */
  lemma {:induction false} StringLessExactly(a: string, b: string)
    ensures StringLess(a, b) <==> exists k: nat :: PartsAt(a, b, k)
  {
    if b != [] {
      if a == [] {
        assert PartsAt(a, b, 0);
      } else {
        StringLessExactly(a[1..], b[1..]);
        PartsLater(a, b);
      }
    }
  }

  lemma PartsLater(a: string, b: string)
    requires a != [] && b != []
    ensures (exists k: nat :: PartsAt(a, b, k))
      <==> a[0] < b[0] || (a[0] == b[0] && exists k: nat :: PartsAt(a[1..], b[1..], k))
  {
    if a[0] < b[0] {
      assert PartsAt(a, b, 0);
    }
    if k: nat :| PartsAt(a, b, k) && k > 0 {
      assert a[..k][0] == a[0] && b[..k][0] == b[0];
      assert a[1..][..k - 1] == a[..k][1..] && b[1..][..k - 1] == b[..k][1..];
      assert PartsAt(a[1..], b[1..], k - 1);
    }
    if a[0] == b[0] {
      if k: nat :| PartsAt(a[1..], b[1..], k) {
        assert a[..k + 1] == [a[0]] + a[1..][..k] && b[..k + 1] == [b[0]] + b[1..][..k];
        assert PartsAt(a, b, k + 1);
      }
    }
  }
}
