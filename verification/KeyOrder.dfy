/**
 The order of an object's own keys in numbers and strings: array indices first, ascending, then
 the other keys by their characters. Canonical JSON has it at every depth.
 */
module KeyOrder {
  import opened Ordering
  import opened JsonText
  import opened Canonical

  ghost predicate AllDigits(s: string) {
    forall i :: 0 <= i < |s| ==> IsDigit(s[i])
  }

  // ------------------------------------------------------ digits and numbers

  ghost function Tens(k: nat): nat {
    if k == 0 then 1 else 10 * Tens(k - 1)
  }

  lemma {:induction false} TensGrow(j: nat, k: nat)
    requires j <= k
    ensures 1 <= Tens(j) <= Tens(k)
    decreases k
  {
    if j < k {
      TensGrow(j, k - 1);
    } else if k > 0 {
      TensGrow(j - 1, k - 1);
    }
  }

  /** A number lies between the powers of ten that its digits span. */
  lemma {:induction false} NatOfBounds(digits: string)
    requires AllDigits(digits)
    ensures NatOf(digits) < Tens(|digits|)
    ensures digits != [] && digits[0] != '0' ==> Tens(|digits| - 1) <= NatOf(digits)
  {
    if digits != [] {
      var init := digits[..|digits| - 1];
      NatOfBounds(init);
      if init == [] {
        assert digits[0] != '0' ==> DigitValue(digits[0]) >= 1;
      }
    }
  }

  lemma DigitOfValue(c: char)
    requires IsDigit(c)
    ensures DigitValue(c) < 10 && DigitChar(DigitValue(c)) == c
  {
  }

  /** Digits without leading zeros are printed as they stand. */
  lemma {:induction false} PrintNatOfDigits(digits: string)
    requires AllDigits(digits) && digits != [] && (|digits| > 1 ==> digits[0] != '0')
    ensures PrintNat(NatOf(digits)) == digits
  {
    var n := |digits| - 1;
    var init := digits[..n];
    DigitOfValue(digits[n]);
    assert digits == init + [digits[n]];
    if n > 0 {
      NatOfBounds(init);
      TensGrow(0, n - 1);
      PrintNatOfDigits(init);
    }
  }

  lemma {:induction false} StringLessSnoc(a: string, b: string, c: char, d: char)
    requires |a| == |b|
    ensures StringLess(a + [c], b + [d]) <==> StringLess(a, b) || (a == b && c < d)
  {
    if a != [] {
      assert (a + [c])[1..] == a[1..] + [c] && (b + [d])[1..] == b[1..] + [d];
      assert a == [a[0]] + a[1..] && b == [b[0]] + b[1..];
      StringLessSnoc(a[1..], b[1..], c, d);
    }
  }

  /** Of equally many digits the order of the characters is that of the numbers. */
  lemma {:induction false} DigitOrder(a: string, b: string)
    requires AllDigits(a) && AllDigits(b) && |a| == |b|
    ensures StringLess(a, b) <==> NatOf(a) < NatOf(b)
    ensures a == b <==> NatOf(a) == NatOf(b)
  {
    if a != [] {
      var n := |a| - 1;
      DigitOrder(a[..n], b[..n]);
      StringLessSnoc(a[..n], b[..n], a[n], b[n]);
      assert a == a[..n] + [a[n]] && b == b[..n] + [b[n]];
      DigitOfValue(a[n]);
      DigitOfValue(b[n]);
    }
  }

  // ------------------------------------------------------------ index keys

  /** `key` writes the array index `n`. */
  predicate Denotes(key: string, n: nat) {
    n < 4_294_967_295 && key == PrintNat(n)
  }

  lemma OneMoreDigit(init: string, c: char, digits: string)
    requires AllDigits(init) && IsDigit(c) && digits == init + [c]
    ensures NatOf(digits) == 10 * NatOf(init) + DigitValue(c)
  {
    assert digits[..|init|] == init;
  }

  lemma FirstDigits()
    ensures NatOf("42949") == 42_949
  {
    OneMoreDigit("", '4', "4");
    OneMoreDigit("4", '2', "42");
    OneMoreDigit("42", '9', "429");
    OneMoreDigit("429", '4', "4294");
    OneMoreDigit("4294", '9', "42949");
  }

  lemma AllTenDigits()
    ensures NatOf("4294967295") == 4_294_967_295
  {
    FirstDigits();
    OneMoreDigit("42949", '6', "429496");
    OneMoreDigit("429496", '7', "4294967");
    OneMoreDigit("4294967", '2', "42949672");
    OneMoreDigit("42949672", '9', "429496729");
    OneMoreDigit("429496729", '5', "4294967295");
  }

  lemma LargestIndex()
    ensures AllDigits("4294967295") && NatOf("4294967295") == 4_294_967_295
    ensures Tens(9) == 1_000_000_000 && Tens(10) == 10_000_000_000
  {
    AllTenDigits();
    assert Tens(3) == 1_000 && Tens(6) == 1_000_000;
  }

  /** The index keys are the numbers below 2^32 - 1 in their decimal form. */
  lemma IndexExactly(key: string)
    ensures IsIndex(key) <==> exists n: nat :: Denotes(key, n)
    ensures IsIndex(key) ==> AllDigits(key) && Denotes(key, NatOf(key))
  {
    LargestIndex();
    if IsIndex(key) {
      IndexDenotes(key);
    }
    if n: nat :| Denotes(key, n) {
      DenotedIsIndex(key, n);
    }
  }

  lemma IndexDenotes(key: string)
    requires IsIndex(key)
    ensures Denotes(key, NatOf(key))
  {
    LargestIndex();
    PrintNatOfDigits(key);
    if |key| == 10 {
      DigitOrder(key, "4294967295");
    } else {
      NatOfBounds(key);
      TensGrow(|key|, 9);
    }
  }

  lemma DenotedIsIndex(key: string, n: nat)
    requires Denotes(key, n)
    ensures IsIndex(key)
  {
    LargestIndex();
    NatOfPrintNat(n);
    NatOfBounds(key);
    if |key| > 10 {
      TensGrow(10, |key| - 1);
    } else if |key| == 10 {
      DigitOrder(key, "4294967295");
    }
  }

  lemma IndexOrder(a: string, b: string)
    requires IsIndex(a) && IsIndex(b)
    ensures IndexLess(a, b) <==> NatOf(a) < NatOf(b)
  {
    NatOfBounds(a);
    NatOfBounds(b);
    if |a| < |b| {
      TensGrow(|a|, |b| - 1);
    } else if |b| < |a| {
      TensGrow(|b|, |a| - 1);
    } else {
      DigitOrder(a, b);
    }
  }

  /** Indices before all other keys and by their number; the others by their characters. */
  ghost predicate ComesBefore(a: string, b: string) {
    if exists m: nat :: Denotes(a, m) then forall m: nat, n: nat :: Denotes(a, m) && Denotes(b, n) ==> m < n
    else !(exists n: nat :: Denotes(b, n)) && StringLess(a, b)
  }

  lemma KeyOrderExactly(a: string, b: string)
    ensures KeyLess(a, b) <==> ComesBefore(a, b)
  {
    IndexExactly(a);
    IndexExactly(b);
    if IsIndex(a) && IsIndex(b) {
      IndexOrder(a, b);
      forall m: nat | Denotes(a, m) ensures m == NatOf(a) {
        NatOfPrintNat(m);
      }
      forall n: nat | Denotes(b, n) ensures n == NatOf(b) {
        NatOfPrintNat(n);
      }
    }
  }

  // -------------------------------------------------------- canonical values

  ghost predicate KeysInOrder(ms: seq<Member>) {
    forall i, j :: 0 <= i < j < |ms| ==> ComesBefore(ms[i].key, ms[j].key)
  }

  /** At every depth the members are in order. */
  ghost predicate InKeyOrder(v: Json)
    decreases v
  {
    match v
    case Arr(items) => forall x :: x in items ==> InKeyOrder(x)
    case Obj(ms) => KeysInOrder(ms) && forall m :: m in ms ==> InKeyOrder(m.value)
    case _ => true
  }

  lemma OrderedKeys(ms: seq<Member>)
    requires DistinctKeys(ms)
    ensures KeysInOrder(Ordered(ms))
  {
    var sorted := Ordered(ms);
    MemberLessIsStrictWeakOrder();
    SortSorts(ms, MemberLess);
    SortKeepsElements(ms, MemberLess);
    DistinctAfterReordering(ms, sorted);
    forall i, j | 0 <= i < j < |sorted| ensures ComesBefore(sorted[i].key, sorted[j].key) {
      assert !MemberLess(sorted[j], sorted[i]);
      KeyLessTotal(sorted[i].key, sorted[j].key);
      KeyOrderExactly(sorted[i].key, sorted[j].key);
    }
  }

  /** A canonical value has its keys in order, at every depth. */
  lemma {:induction false} CanonicalInKeyOrder(v: Json)
    requires WellFormed(v)
    ensures InKeyOrder(Canonicalize(v))
    decreases v
  {
    match v
    case Arr(items) =>
      forall x | x in CanonicalItems(items) ensures InKeyOrder(x) {
        var i :| 0 <= i < |items| && CanonicalItems(items)[i] == x;
        CanonicalInKeyOrder(items[i]);
      }
    case Obj(ms) =>
      var c := CanonicalMembers(ms);
      assert DistinctKeys(c);
      OrderedKeys(c);
      SortKeepsElements(c, MemberLess);
      forall m | m in Ordered(c) ensures InKeyOrder(m.value) {
        assert m in multiset(c);
        assert m in c;
        var i :| 0 <= i < |ms| && c[i] == m;
        CanonicalInKeyOrder(ms[i].value);
      }
    case _ =>
  }
}
