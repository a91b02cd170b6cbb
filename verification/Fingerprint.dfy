/**
 The dedupe key of a backup: which forms it holds and how they are stored. Equal data gives
 an equal key in any order; any edit, rename or touch gives another one.
 */
module Fingerprint {
  import opened Wrappers
  import opened Ordering
  import opened JsonText
  import opened Conflict
  import P = Pipeline
  import BackupSchema

  /** What identifies a version of a form. */
  datatype Key = Key(id: string, updatedAtMs: int, contentHash: string)

  function KeyOf(tf: Form): Key {
    Key(tf.id, tf.updatedAtMs, tf.contentHash)
  }

  /** Canonical order: time, then id, then hash. */
  predicate Earlier(a: Key, b: Key) {
    if a.updatedAtMs != b.updatedAtMs then a.updatedAtMs < b.updatedAtMs
    else if a.id != b.id then StringLess(a.id, b.id)
    else StringLess(a.contentHash, b.contentHash)
  }

  predicate FormEarlier(a: Form, b: Form) {
    Earlier(KeyOf(a), KeyOf(b))
  }

  lemma EarlierTotal(a: Key, b: Key)
    ensures Earlier(a, b) || Earlier(b, a) || a == b
    ensures !(Earlier(a, b) && Earlier(b, a))
    ensures a == b ==> !Earlier(a, b)
  {
    StringLessTotal(a.id, b.id);
    StringLessTotal(a.contentHash, b.contentHash);
  }

  lemma EarlierTransitive(a: Key, b: Key, c: Key)
    requires Earlier(a, b) && Earlier(b, c)
    ensures Earlier(a, c)
  {
    if a.updatedAtMs == b.updatedAtMs == c.updatedAtMs {
      if a.id == b.id == c.id {
        StringLessTransitive(a.contentHash, b.contentHash, c.contentHash);
      } else if a.id != b.id && b.id != c.id {
        StringLessTransitive(a.id, b.id, c.id);
        StringLessTotal(a.id, c.id);
      }
    }
  }

  lemma EarlierIsStrictWeakOrder()
    ensures StrictWeakOrder(Earlier)
  {
    forall x: Key ensures !Earlier(x, x) {
      EarlierTotal(x, x);
    }
    forall x: Key, y: Key, z: Key | Earlier(x, y) && Earlier(y, z) ensures Earlier(x, z) {
      EarlierTransitive(x, y, z);
    }
    forall x: Key, y: Key, z: Key | Earlier(x, z) ensures Earlier(x, y) || Earlier(y, z) {
      EarlierTotal(x, y);
      if Earlier(y, x) {
        EarlierTransitive(y, x, z);
      }
    }
  }

  // --------------------------------------------------------- preparation

  /** The forms updated after `since`. */
  function Newer(forms: seq<Form>, since: int): seq<Form> {
    if forms == [] then []
    else
      var last := forms[|forms| - 1];
      Newer(forms[..|forms| - 1], since) + if last.updatedAtMs > since then [last] else []
  }

  function KeysOf(forms: seq<Form>): (keys: seq<Key>)
    ensures |keys| == |forms| && forall i :: 0 <= i < |forms| ==> keys[i] == KeyOf(forms[i])
  {
    seq(|forms|, i requires 0 <= i < |forms| => KeyOf(forms[i]))
  }

  /** The forms of a backup: each one's hash is checked, older ones are dropped, the rest is sorted. */
  method PrepareForms(rt: Runtime, forms: seq<Form>, since: int) returns (r: Result<seq<Form>, nat>)
    ensures r.Ok? ==> ArePrepared(forms, since, r.value)
    ensures r.Ok? ==> AllVerified(rt, forms) && r.value == Sort(Newer(forms, since), FormEarlier)
    ensures r.Err? ==> r.error < |forms| && !Verified(rt, forms[r.error]) && AllVerified(rt, forms[..r.error])
  {
    for i := 0 to |forms|
      invariant AllVerified(rt, forms[..i])
    {
      if forms[i].contentHash != ComputeContentHash(rt, forms[i]) {
        return Err(i);
      }
      OneMoreVerified(rt, forms, i);
    }
    assert forms[..|forms|] == forms;
    SortedArePrepared(forms, since);
    return Ok(Sort(Newer(forms, since), FormEarlier));
  }

  /** The forms updated after `since`, as often as they occur, by time, then id, then hash. */
  ghost predicate ArePrepared(forms: seq<Form>, since: int, prepared: seq<Form>) {
    && (forall tf: Form :: multiset(prepared)[tf] == if tf.updatedAtMs > since then multiset(forms)[tf] else 0)
    && forall i, j :: 0 <= i < j < |prepared| ==> IsCanonicallyOrdered(prepared[i], prepared[j])
  }

  predicate IsCanonicallyOrdered(a: Form, b: Form) {
    || a.updatedAtMs < b.updatedAtMs
    || (a.updatedAtMs == b.updatedAtMs
        && (StringLess(a.id, b.id) || (a.id == b.id && !StringLess(b.contentHash, a.contentHash))))
  }

  lemma {:induction false} NewerCounts(forms: seq<Form>, since: int, tf: Form)
    ensures multiset(Newer(forms, since))[tf] == if tf.updatedAtMs > since then multiset(forms)[tf] else 0
  {
    if forms != [] {
      var n := |forms| - 1;
      NewerCounts(forms[..n], since, tf);
      assert forms == forms[..n] + [forms[n]];
    }
  }

  lemma FormEarlierIsStrictWeakOrder()
    ensures StrictWeakOrder(FormEarlier)
  {
    EarlierIsStrictWeakOrder();
    forall x: Form, y: Form, z: Form | FormEarlier(x, z) ensures FormEarlier(x, y) || FormEarlier(y, z) {
      assert Earlier(KeyOf(x), KeyOf(y)) || Earlier(KeyOf(y), KeyOf(z));
    }
    forall x: Form, y: Form, z: Form | FormEarlier(x, y) && FormEarlier(y, z) ensures FormEarlier(x, z) {
      EarlierTransitive(KeyOf(x), KeyOf(y), KeyOf(z));
    }
  }

  lemma SortedArePrepared(forms: seq<Form>, since: int)
    ensures ArePrepared(forms, since, Sort(Newer(forms, since), FormEarlier))
  {
    var newer, sorted := Newer(forms, since), Sort(Newer(forms, since), FormEarlier);
    FormEarlierIsStrictWeakOrder();
    SortSorts(newer, FormEarlier);
    SortKeepsElements(newer, FormEarlier);
    forall tf: Form ensures multiset(sorted)[tf] == if tf.updatedAtMs > since then multiset(forms)[tf] else 0 {
      NewerCounts(forms, since, tf);
    }
    forall i, j | 0 <= i < j < |sorted| ensures IsCanonicallyOrdered(sorted[i], sorted[j]) {
      assert !FormEarlier(sorted[j], sorted[i]);
      StringLessTotal(sorted[i].id, sorted[j].id);
    }
  }

  lemma OneMoreVerified(rt: Runtime, forms: seq<Form>, i: nat)
    requires i < |forms| && AllVerified(rt, forms[..i]) && Verified(rt, forms[i])
    ensures AllVerified(rt, forms[..i + 1])
  {
    assert forms[..i + 1] == forms[..i] + [forms[i]];
  }

  /** Taking keys commutes with sorting. */
  lemma {:induction false} KeysOfInsert(forms: seq<Form>, tf: Form)
    ensures KeysOf(Insert(forms, tf, FormEarlier)) == Insert(KeysOf(forms), KeyOf(tf), Earlier)
  {
    if forms != [] && !FormEarlier(tf, forms[0]) {
      KeysOfInsert(forms[1..], tf);
      assert KeysOf(forms)[1..] == KeysOf(forms[1..]);
    }
  }

  lemma {:induction false} KeysOfSort(forms: seq<Form>)
    ensures KeysOf(Sort(forms, FormEarlier)) == Sort(KeysOf(forms), Earlier)
  {
    if forms != [] {
      var n := |forms| - 1;
      KeysOfSort(forms[..n]);
      KeysOfInsert(Sort(forms[..n], FormEarlier), forms[n]);
      assert KeysOf(forms)[..n] == KeysOf(forms[..n]);
    }
  }

  // --------------------------------------------------------- the fingerprint

  function Line(k: Key): string {
    k.id + "@" + PrintInt(k.updatedAtMs) + "#" + k.contentHash
  }

  /** `lines.join('\n')` */
  function Joined(keys: seq<Key>): string {
    if keys == [] then ""
    else if |keys| == 1 then Line(keys[0])
    else Joined(keys[..|keys| - 1]) + "\n" + Line(keys[|keys| - 1])
  }

  function Fingerprint(keys: seq<Key>, compress: P.Compression, encrypt: P.Encryption): string {
    Joined(keys) + ":" + P.CompressionName(compress) + ":" + P.EncryptionName(encrypt)
  }

  /** The text that stands for a backup of `forms`. */
  function CoveredText(forms: seq<Form>, since: int, compress: P.Compression, encrypt: P.Encryption): string {
    Fingerprint(KeysOf(Sort(Newer(forms, since), FormEarlier)), compress, encrypt)
  }

  /** `dedupeKey` */
  function DedupeKey(sha256: string -> string, forms: seq<Form>, since: int, compress: P.Compression,
                     encrypt: P.Encryption): string {
    sha256(CoveredText(forms, since, compress, encrypt))
  }

  /** The text of a backup of two forms, in full. */
  lemma TextOfTwoForms(a: Form, b: Form, since: int, compress: P.Compression, encrypt: P.Encryption)
    requires since < a.updatedAtMs < b.updatedAtMs
    ensures CoveredText([b, a], since, compress, encrypt) == CoveredText([a, b], since, compress, encrypt)
      == a.id + "@" + PrintInt(a.updatedAtMs) + "#" + a.contentHash + "\n"
         + (b.id + "@" + PrintInt(b.updatedAtMs) + "#" + b.contentHash)
         + ":" + (if compress == P.Gzip then "gzip" else "none")
         + ":" + (if encrypt == P.VetKeys then "vetkeys-aes-gcm-v1" else "none")
  {
    NewerOfTwo(a, b, since);
    NewerOfTwo(b, a, since);
    SortOfTwo(a, b);
    var keys := KeysOf([a, b]);
    assert keys[..1] == [KeyOf(a)];
    assert Joined([KeyOf(a)]) == Line(KeyOf(a));
    assert Joined(keys) == Line(KeyOf(a)) + "\n" + Line(KeyOf(b));
  }

  lemma NewerOfTwo(a: Form, b: Form, since: int)
    requires since < a.updatedAtMs && since < b.updatedAtMs
    ensures Newer([a, b], since) == [a, b]
  {
    assert [a, b][..1] == [a] && [a][..0] == [];
    assert Newer([a], since) == [a];
  }

  lemma SortOfTwo(a: Form, b: Form)
    requires a.updatedAtMs < b.updatedAtMs
    ensures Sort([a, b], FormEarlier) == Sort([b, a], FormEarlier) == [a, b]
  {
    SortOfPair(a, b);
    SortOfPair(b, a);
  }

  lemma SortOfPair(x: Form, y: Form)
    ensures Sort([x, y], FormEarlier) == if FormEarlier(y, x) then [y, x] else [x, y]
  {
    assert [x, y][..1] == [x] && [x][..0] == [];
    assert Sort([x], FormEarlier) == [x];
    assert Insert([x][1..], y, FormEarlier) == [y];
  }

  // ------------------------------------------------------------ injectivity

  predicate Free(s: string, c: char) {
    forall i :: 0 <= i < |s| ==> s[i] != c
  }

  /** What follows the last separator, and so what precedes it, can be read off. */
  lemma LastSeparator(a: string, b: string, a': string, b': string, c: char)
    requires a + [c] + b == a' + [c] + b' && Free(b, c) && Free(b', c)
    ensures a == a' && b == b'
  {
    var s := a + [c] + b;
    assert s[|a|] == c && s[|a'|] == c;
    forall i | |a| < i < |s| ensures s[i] != c {
      assert s[i] == b[i - |a| - 1];
    }
    forall i | |a'| < i < |s| ensures s[i] != c {
      assert s[i] == b'[i - |a'| - 1];
    }
    assert a == s[..|a|] && a' == s[..|a|];
    assert b == s[|a| + 1..] && b' == s[|a| + 1..];
  }

  /** Ids without newlines, and hashes as SHA-256 in hex. */
  ghost predicate Printable(k: Key) {
    Free(k.id, '\n') && BackupSchema.IsHash(k.contentHash)
  }

  ghost predicate AllPrintable(keys: seq<Key>) {
    forall i :: 0 <= i < |keys| ==> Printable(keys[i])
  }

  lemma PrintIntIsPlain(n: int)
    ensures Free(PrintInt(n), '@') && Free(PrintInt(n), '\n') && PrintInt(n) != ""
  {
  }

  lemma HashIsPlain(hash: string)
    requires BackupSchema.IsHash(hash)
    ensures Free(hash, '#') && Free(hash, '\n')
  {
  }

  lemma PrintIntInjective(m: int, n: int)
    requires PrintInt(m) == PrintInt(n)
    ensures m == n
  {
    ParseIntInvertsPrintInt(m, "");
    ParseIntInvertsPrintInt(n, "");
  }

  /** The last line's hash, its time and what precedes them can be read off, whatever that is. */
  lemma LineEnds(before: string, a: Key, before': string, b: Key)
    requires BackupSchema.IsHash(a.contentHash) && BackupSchema.IsHash(b.contentHash)
    requires before + Line(a) == before' + Line(b)
    ensures before + a.id == before' + b.id && a.updatedAtMs == b.updatedAtMs && a.contentHash == b.contentHash
  {
    HashIsPlain(a.contentHash);
    HashIsPlain(b.contentHash);
    var ha, hb := before + a.id + "@" + PrintInt(a.updatedAtMs), before' + b.id + "@" + PrintInt(b.updatedAtMs);
    assert before + Line(a) == ha + ['#'] + a.contentHash && before' + Line(b) == hb + ['#'] + b.contentHash;
    LastSeparator(ha, a.contentHash, hb, b.contentHash, '#');
    PrintIntIsPlain(a.updatedAtMs);
    PrintIntIsPlain(b.updatedAtMs);
    var ia, ib := before + a.id, before' + b.id;
    assert ha == ia + ['@'] + PrintInt(a.updatedAtMs) && hb == ib + ['@'] + PrintInt(b.updatedAtMs);
    LastSeparator(ia, PrintInt(a.updatedAtMs), ib, PrintInt(b.updatedAtMs), '@');
    PrintIntInjective(a.updatedAtMs, b.updatedAtMs);
  }

  lemma LineInjective(a: Key, b: Key)
    requires BackupSchema.IsHash(a.contentHash) && BackupSchema.IsHash(b.contentHash) && Line(a) == Line(b)
    ensures a == b
  {
    assert "" + Line(a) == Line(a) && "" + Line(b) == Line(b);
    LineEnds("", a, "", b);
    assert "" + a.id == a.id && "" + b.id == b.id;
  }

  lemma LineIsOneLine(k: Key)
    requires Printable(k)
    ensures Free(Line(k), '\n') && Line(k) != ""
  {
    PrintIntIsPlain(k.updatedAtMs);
    HashIsPlain(k.contentHash);
  }

  lemma {:induction false} JoinedInjective(a: seq<Key>, b: seq<Key>)
    requires AllPrintable(a) && AllPrintable(b) && Joined(a) == Joined(b)
    ensures a == b
    decreases |a|
  {
    if a == [] || b == [] {
      JoinedIsEmpty(a);
      JoinedIsEmpty(b);
    } else if |a| > 1 && |b| > 1 {
      LastLines(a, b);
      InitPrintable(a);
      InitPrintable(b);
      JoinedInjective(a[..|a| - 1], b[..|b| - 1]);
      SameEnds(a, b);
    } else {
      SingleLine(a, b);
      LineInjective(a[0], b[0]);
      assert a == [a[0]] && b == [b[0]];
    }
  }

  lemma SameEnds<T>(a: seq<T>, b: seq<T>)
    requires a != [] && b != [] && a[..|a| - 1] == b[..|b| - 1] && a[|a| - 1] == b[|b| - 1]
    ensures a == b
  {
    assert a == a[..|a| - 1] + [a[|a| - 1]] && b == b[..|b| - 1] + [b[|b| - 1]];
  }

  lemma LastLines(a: seq<Key>, b: seq<Key>)
    requires AllPrintable(a) && AllPrintable(b) && |a| > 1 && |b| > 1 && Joined(a) == Joined(b)
    ensures Joined(a[..|a| - 1]) == Joined(b[..|b| - 1]) && a[|a| - 1] == b[|b| - 1]
  {
    var x, y := a[|a| - 1], b[|b| - 1];
    LineIsOneLine(x);
    LineIsOneLine(y);
    JoinedLast(a);
    JoinedLast(b);
    LastSeparator(Joined(a[..|a| - 1]), Line(x), Joined(b[..|b| - 1]), Line(y), '\n');
    LineInjective(x, y);
  }

  lemma JoinedLast(keys: seq<Key>)
    requires |keys| > 1
    ensures Joined(keys) == Joined(keys[..|keys| - 1]) + ['\n'] + Line(keys[|keys| - 1])
  {
  }

  lemma InitPrintable(keys: seq<Key>)
    requires AllPrintable(keys) && keys != []
    ensures AllPrintable(keys[..|keys| - 1])
  {
  }

  lemma JoinedIsEmpty(keys: seq<Key>)
    requires AllPrintable(keys)
    ensures Joined(keys) == "" <==> keys == []
  {
    if keys != [] {
      LineIsOneLine(keys[|keys| - 1]);
    }
  }

  /** A text without a newline is a single line. */
  lemma SingleLine(a: seq<Key>, b: seq<Key>)
    requires AllPrintable(a) && AllPrintable(b) && a != [] && b != [] && Joined(a) == Joined(b)
    requires |a| == 1 || |b| == 1
    ensures |a| == 1 && |b| == 1 && Line(a[0]) == Line(b[0])
  {
    LineIsOneLine(a[0]);
    LineIsOneLine(b[0]);
    HasNewline(a);
    HasNewline(b);
  }

  lemma HasNewline(keys: seq<Key>)
    requires keys != []
    ensures |keys| > 1 ==> !Free(Joined(keys), '\n')
  {
    if |keys| > 1 {
      var n := |keys| - 1;
      assert Joined(keys)[|Joined(keys[..n])|] == '\n';
    }
  }

  /** The key whose id spells out the lines before `b`, and `b`'s own. */
  function Spelled(before: seq<Key>, b: Key): Key {
    Key(Joined(before) + "\n" + b.id, b.updatedAtMs, b.contentHash)
  }

  /** Alone it has the text of all of them. */
  lemma SpelledOut(before: seq<Key>, b: Key)
    requires before != []
    ensures Joined([Spelled(before, b)]) == Joined(before + [b])
  {
    assert (before + [b])[..|before|] == before;
    LineAround(Joined(before) + "\n", b);
  }

  lemma LineAround(before: string, b: Key)
    ensures Line(Key(before + b.id, b.updatedAtMs, b.contentHash)) == before + Line(b)
  {
    var time := "@" + PrintInt(b.updatedAtMs);
    assert (before + b.id) + time == before + (b.id + time);
    assert before + (b.id + time) + "#" == before + (b.id + time + "#");
  }

  // ------------------------------------------- which backups share a text

  /** A key of a valid form: the schema wants a nonempty id and a time of at least 0. */
  ghost predicate ValidKey(k: Key) {
    k.id != "" && k.updatedAtMs >= 0 && BackupSchema.IsHash(k.contentHash)
  }

  /** What a backup can cover: valid keys in canonical order. */
  ghost predicate Coverable(keys: seq<Key>) {
    (forall i :: 0 <= i < |keys| ==> ValidKey(keys[i])) && Sorted(keys, Earlier)
  }

  ghost predicate SharesText(keys: seq<Key>) {
    exists others :: Coverable(others) && others != keys && Joined(others) == Joined(keys)
  }

  /** What is left of a key whose id begins with some text. */
  function Rest(k: Key, rest: string): Key {
    k.(id := rest)
  }

  /** The id begins with the line of a key that may stand before what is left. */
  ghost predicate StartsWithLine(k: Key, first: Key, rest: string) {
    && ValidKey(first) && rest != "" && k.id == Line(first) + "\n" + rest
    && !Earlier(Rest(k, rest), first)
  }

  ghost predicate HoldsLine(k: Key) {
    exists first: Key, rest: string :: StartsWithLine(k, first, rest)
  }

  /**
   The schema allows newlines in ids. What one backup covers shares its text with what another
   one covers exactly if it has several keys, or one whose id begins with the line of a key that
   does not come later than the rest of it.
   */
  lemma SharesTextExactly(keys: seq<Key>)
    requires Coverable(keys)
    ensures SharesText(keys) <==> |keys| > 1 || (|keys| == 1 && HoldsLine(keys[0]))
  {
    if |keys| > 1 {
      ManyKeysShareText(keys, |keys| - 1);
    } else if |keys| == 1 {
      OneKeySharesText(keys[0]);
      assert keys == [keys[0]];
    } else {
      forall others | Coverable(others) && Joined(others) == "" ensures others == [] {
        if others != [] {
          EndsInHash(others);
        }
      }
    }
  }

  lemma ManyKeysShareText(keys: seq<Key>, n: nat)
    requires Coverable(keys) && |keys| == n + 1 > 1
    ensures SharesText(keys)
  {
    var one := [Spelled(keys[..n], keys[n])];
    SpelledOut(keys[..n], keys[n]);
    assert keys == keys[..n] + [keys[n]];
    EarlierTotal(one[0], one[0]);
    assert Coverable(one) && one != keys;
  }

  lemma EndsInHash(keys: seq<Key>)
    requires Coverable(keys) && keys != []
    ensures Joined(keys) != ""
  {
    assert |keys[|keys| - 1].contentHash| > 0;
  }

  lemma OneKeySharesText(k: Key)
    requires ValidKey(k)
    ensures SharesText([k]) <==> HoldsLine(k)
  {
    if first, rest :| StartsWithLine(k, first, rest) {
      TwoKeysInstead(k, first, rest);
    }
    if SharesText([k]) {
      var others :| Coverable(others) && others != [k] && Joined(others) == Joined([k]);
      SharerHoldsLine(k, others);
    }
  }

  lemma TwoKeysInstead(k: Key, first: Key, rest: string)
    requires ValidKey(k) && StartsWithLine(k, first, rest)
    ensures SharesText([k])
  {
    var two := [first] + [Rest(k, rest)];
    SpelledOut([first], Rest(k, rest));
    assert Spelled([first], Rest(k, rest)) == k;
    EarlierTotal(first, first);
    assert Coverable(two) && two != [k];
  }

  lemma SharerHoldsLine(k: Key, others: seq<Key>)
    requires ValidKey(k) && Coverable(others) && others != [k] && Joined(others) == Line(k)
    ensures HoldsLine(k)
  {
    EndsInHash([k]);
    if |others| == 1 {
      LineInjective(others[0], k);
    } else {
      var n := |others| - 1;
      EndsWithId(Joined(others[..n]) + "\n", others[n], k);
      if n == 1 {
        assert StartsWithLine(k, others[0], others[1].id);
      } else {
        var more := SecondLine(others[..n], others[n].id);
        var rest := others[1].id + more;
        SecondIsNotEarlier(others, Rest(k, rest), more);
        assert StartsWithLine(k, others[0], rest);
      }
    }
  }

  /** What begins with the second id and is as old as the last key does not come before the first key. */
  lemma SecondIsNotEarlier(keys: seq<Key>, last: Key, more: string)
    requires |keys| > 2 && Sorted(keys, Earlier)
    requires last.updatedAtMs == keys[|keys| - 1].updatedAtMs && last.id == keys[1].id + more && more != ""
    ensures !Earlier(last, keys[0])
  {
    var first, second := keys[0], keys[1];
    assert !Earlier(keys[|keys| - 1], first) && !Earlier(keys[|keys| - 1], second) && !Earlier(second, first);
    LongerIsLater(second.id, more);
    if Earlier(last, first) {
      if last.id != first.id {
        StringLessTransitive(second.id, last.id, first.id);
      }
      StringLessTotal(second.id, first.id);
    }
  }

  lemma {:induction false} LongerIsLater(s: string, more: string)
    requires more != ""
    ensures StringLess(s, s + more)
  {
    if s != "" {
      LongerIsLater(s[1..], more);
      assert (s + more)[1..] == s[1..] + more;
    }
  }

  lemma EndsWithId(before: string, last: Key, k: Key)
    requires BackupSchema.IsHash(last.contentHash) && BackupSchema.IsHash(k.contentHash)
    requires before + Line(last) == Line(k)
    ensures before + last.id == k.id && last.updatedAtMs == k.updatedAtMs && last.contentHash == k.contentHash
  {
    assert "" + Line(k) == Line(k) && "" + k.id == k.id;
    LineEnds(before, last, "", k);
  }

  /** A text of several lines goes on behind the first one with the second id. */
  lemma {:induction false} SecondLine(keys: seq<Key>, tail: string) returns (more: string)
    requires |keys| > 1
    ensures Joined(keys) + "\n" + tail == Line(keys[0]) + "\n" + (keys[1].id + more) && more != ""
    decreases |keys|
  {
    var n := |keys| - 1;
    LastLineApart(keys, tail);
    if n == 1 {
      more := BehindId(keys[1], tail);
    } else {
      more := SecondLine(keys[..n], Line(keys[n]) + "\n" + tail);
    }
  }

  lemma LastLineApart(keys: seq<Key>, tail: string)
    requires |keys| > 1
    ensures
      var n := |keys| - 1;
      Joined(keys) + "\n" + tail == Joined(keys[..n]) + "\n" + (Line(keys[n]) + "\n" + tail)
  {
    Regroup(Joined(keys[..|keys| - 1]), Line(keys[|keys| - 1]), tail);
  }

  lemma BehindId(k: Key, tail: string) returns (more: string)
    ensures Line(k) + "\n" + tail == k.id + more && more != ""
  {
    var time := "@" + PrintInt(k.updatedAtMs);
    more := time + "#" + k.contentHash + "\n" + tail;
    assert k.id + time + "#" + k.contentHash + "\n" + tail == k.id + more;
  }

  lemma Regroup(a: string, b: string, c: string)
    ensures a + "\n" + b + "\n" + c == a + "\n" + (b + "\n" + c)
  {
  }

  lemma NamesArePlain(compress: P.Compression, encrypt: P.Encryption)
    ensures Free(P.CompressionName(compress), ':') && Free(P.EncryptionName(encrypt), ':')
  {
  }

  lemma NamesInjective(c: P.Compression, c': P.Compression, e: P.Encryption, e': P.Encryption)
    requires P.CompressionName(c) == P.CompressionName(c') && P.EncryptionName(e) == P.EncryptionName(e')
    ensures c == c' && e == e'
  {
    assert P.CompressionName(P.Gzip)[0] == 'g' && P.CompressionName(P.NoCompression)[0] == 'n';
    assert P.EncryptionName(P.VetKeys)[0] == 'v' && P.EncryptionName(P.NoEncryption)[0] == 'n';
  }

  /** The text determines the sorted keys and the options. */
  lemma FingerprintInjective(a: seq<Key>, b: seq<Key>, c: P.Compression, c': P.Compression, e: P.Encryption,
                             e': P.Encryption)
    requires AllPrintable(a) && AllPrintable(b) && Fingerprint(a, c, e) == Fingerprint(b, c', e')
    ensures a == b && c == c' && e == e'
  {
    NamesArePlain(c, e);
    NamesArePlain(c', e');
    LastSeparator(Joined(a) + ":" + P.CompressionName(c), P.EncryptionName(e),
                  Joined(b) + ":" + P.CompressionName(c'), P.EncryptionName(e'), ':');
    LastSeparator(Joined(a), P.CompressionName(c), Joined(b), P.CompressionName(c'), ':');
    NamesInjective(c, c', e, e');
    JoinedInjective(a, b);
  }

  // ---------------------------------------------------- any input order

  lemma KeysAreUntied(keys: seq<Key>)
    ensures Untied(multiset(keys), Earlier)
  {
    forall x, y | x in multiset(keys) && y in multiset(keys) && x != y ensures Earlier(x, y) || Earlier(y, x) {
      EarlierTotal(x, y);
    }
  }

  /** Sorted key lists are equal exactly when the lists hold the same keys equally often. */
  lemma SortedKeysExactly(a: seq<Key>, b: seq<Key>)
    ensures Sort(a, Earlier) == Sort(b, Earlier) <==> multiset(a) == multiset(b)
  {
    SortKeepsElements(a, Earlier);
    SortKeepsElements(b, Earlier);
    if multiset(a) == multiset(b) {
      EarlierIsStrictWeakOrder();
      KeysAreUntied(a);
      SortIgnoresInputOrder(a, b, Earlier);
    }
  }

  /** The keys a backup of `forms` covers. */
  function CoveredKeys(forms: seq<Form>, since: int): seq<Key> {
    KeysOf(Newer(forms, since))
  }

  ghost predicate PrintableCover(forms: seq<Form>, since: int) {
    AllPrintable(CoveredKeys(forms, since))
  }

  lemma SortedIsPrintable(keys: seq<Key>)
    requires AllPrintable(keys)
    ensures AllPrintable(Sort(keys, Earlier))
  {
    SortKeepsElements(keys, Earlier);
    forall i | 0 <= i < |keys| ensures Printable(Sort(keys, Earlier)[i]) {
      assert Sort(keys, Earlier)[i] in multiset(keys);
      assert Sort(keys, Earlier)[i] in keys;
    }
  }

  /**
   Unless SHA-256 collides on the two texts, two backups have one dedupe key exactly when they
   cover the same versions of the same forms, in whatever order, and store them alike.
   */
  lemma DedupeKeyExactly(sha256: string -> string, forms: seq<Form>, forms': seq<Form>, since: int, since': int,
                         c: P.Compression, c': P.Compression, e: P.Encryption, e': P.Encryption)
    requires PrintableCover(forms, since) && PrintableCover(forms', since')
    requires
      var x, y := CoveredText(forms, since, c, e), CoveredText(forms', since', c', e');
      sha256(x) == sha256(y) ==> x == y
    ensures DedupeKey(sha256, forms, since, c, e) == DedupeKey(sha256, forms', since', c', e')
      <==> (c == c' && e == e' && multiset(CoveredKeys(forms, since)) == multiset(CoveredKeys(forms', since')))
  {
    var a, b := CoveredKeys(forms, since), CoveredKeys(forms', since');
    KeysOfSort(Newer(forms, since));
    KeysOfSort(Newer(forms', since'));
    SortedKeysExactly(a, b);
    SortedIsPrintable(a);
    SortedIsPrintable(b);
    if DedupeKey(sha256, forms, since, c, e) == DedupeKey(sha256, forms', since', c', e') {
      FingerprintInjective(Sort(a, Earlier), Sort(b, Earlier), c, c', e, e');
    }
  }

  lemma CoveredSnoc(forms: seq<Form>, tf: Form, since: int)
    ensures CoveredKeys(forms + [tf], since)
      == CoveredKeys(forms, since) + if tf.updatedAtMs > since then [KeyOf(tf)] else []
  {
    assert (forms + [tf])[..|forms|] == forms;
  }

  lemma {:induction false} NewerComesFrom(forms: seq<Form>, since: int)
    ensures forall tf :: tf in Newer(forms, since) ==> tf in forms
  {
    if forms != [] {
      NewerComesFrom(forms[..|forms| - 1], since);
    }
  }

  /** A backup of valid forms covers such a list. */
  lemma CoverIsCoverable(forms: seq<Form>, since: int)
    requires forall tf :: tf in forms ==> ValidKey(KeyOf(tf))
    ensures Coverable(KeysOf(Sort(Newer(forms, since), FormEarlier)))
  {
    var keys := CoveredKeys(forms, since);
    var sorted := Sort(keys, Earlier);
    NewerComesFrom(forms, since);
    KeysOfSort(Newer(forms, since));
    EarlierIsStrictWeakOrder();
    SortSorts(keys, Earlier);
    SortKeepsElements(keys, Earlier);
    forall i | 0 <= i < |sorted| ensures ValidKey(sorted[i]) {
      assert sorted[i] in multiset(keys);
      assert sorted[i] in keys;
    }
  }

  lemma {:induction false} CoveredAppend(a: seq<Form>, b: seq<Form>, since: int)
    ensures CoveredKeys(a + b, since) == CoveredKeys(a, since) + CoveredKeys(b, since)
  {
    if b == [] {
      assert a + b == a;
    } else {
      var init, last := b[..|b| - 1], b[|b| - 1];
      assert (a + init) + [last] == a + b && init + [last] == b;
      CoveredAppend(a, init, since);
      CoveredSnoc(a + init, last, since);
      CoveredSnoc(init, last, since);
    }
  }

  /** Reordering the input reorders the covered keys. */
  lemma {:induction false} CoveredInAnyOrder(a: seq<Form>, b: seq<Form>, since: int)
    requires multiset(a) == multiset(b)
    ensures multiset(CoveredKeys(a, since)) == multiset(CoveredKeys(b, since))
    decreases |a|
  {
    if a == [] {
      assert |multiset(a)| == |multiset(b)|;
    } else {
      var init, x := a[..|a| - 1], a[|a| - 1];
      assert a == init + [x];
      assert x in multiset(b);
      var p :| 0 <= p < |b| && b[p] == x;
      TakeOut(init, x, b, p);
      CoveredInAnyOrder(init, b[..p] + b[p + 1..], since);
      CoveredAppend(init, [x], since);
      CoveredAround(b, p, since);
    }
  }

  lemma TakeOut(init: seq<Form>, x: Form, b: seq<Form>, p: nat)
    requires p < |b| && b[p] == x && multiset(init + [x]) == multiset(b)
    ensures multiset(init) == multiset(b[..p] + b[p + 1..])
  {
    var left, right := b[..p], b[p + 1..];
    assert b == left + [x] + right;
    assert multiset(b) == multiset(left) + multiset{x} + multiset(right);
    assert multiset(init) + multiset{x} == multiset(left + right) + multiset{x};
    assert multiset(init) == multiset(init) + multiset{x} - multiset{x};
  }

  lemma CoveredAround(b: seq<Form>, p: nat, since: int)
    requires p < |b|
    ensures multiset(CoveredKeys(b, since))
      == multiset(CoveredKeys(b[..p] + b[p + 1..], since)) + multiset(CoveredKeys([b[p]], since))
  {
    var left, right := b[..p], b[p + 1..];
    assert b == (left + [b[p]]) + right;
    CoveredAppend(left, right, since);
    CoveredAppend(left, [b[p]], since);
    CoveredAppend(left + [b[p]], right, since);
  }

  /** The key does not depend on the order of the input. */
  lemma DedupeKeyIgnoresInputOrder(sha256: string -> string, forms: seq<Form>, forms': seq<Form>, since: int,
                                   c: P.Compression, e: P.Encryption)
    requires multiset(forms) == multiset(forms')
    ensures DedupeKey(sha256, forms, since, c, e) == DedupeKey(sha256, forms', since, c, e)
  {
    CoveredInAnyOrder(forms, forms', since);
    KeysOfSort(Newer(forms, since));
    KeysOfSort(Newer(forms', since));
    SortedKeysExactly(CoveredKeys(forms, since), CoveredKeys(forms', since));
  }

  // --------------------------------------------- ids that hold newlines

  /** `q` under an id that spells out the line of `p`. */
  function Renamed(p: Form, q: Form): Form {
    q.(id := Line(KeyOf(p)) + "\n" + q.id)
  }

  lemma OneForm(tf: Form, since: int)
    requires tf.updatedAtMs > since
    ensures KeysOf(Sort(Newer([tf], since), FormEarlier)) == [KeyOf(tf)]
  {
    assert [tf][..0] == [];
    assert Newer([], since) == [];
    assert Newer([tf], since) == [tf];
    assert Sort([], FormEarlier) == [];
    assert Sort([tf], FormEarlier) == [tf];
  }

  lemma TwoForms(p: Form, q: Form, since: int)
    requires p.updatedAtMs > since && q.updatedAtMs > since && !FormEarlier(q, p)
    ensures KeysOf(Sort(Newer([p, q], since), FormEarlier)) == [KeyOf(p), KeyOf(q)]
  {
    assert [p, q][..1] == [p];
    assert [p][..0] == [];
    assert Newer([], since) == [];
    assert Newer([p], since) == [p];
    assert Newer([p, q], since) == [p, q];
    assert Sort([], FormEarlier) == [];
    assert Sort([p], FormEarlier) == [p];
    assert Insert([], q, FormEarlier) == [q];
    assert Insert([p], q, FormEarlier) == [p] + [q];
  }

  /**
   Two backups of verified forms with one dedupe key: any two forms, and the later of them
   alone under an id that spells out the line of the other. The content hash covers no id.
   */
  lemma NewlineIdsCollide(rt: Runtime, p: Form, q: Form, since: int, c: P.Compression, e: P.Encryption)
    requires Verified(rt, p) && Verified(rt, q) && p.updatedAtMs > since && q.updatedAtMs > since
    requires !FormEarlier(q, p)
    ensures AllVerified(rt, [p, q]) && AllVerified(rt, [Renamed(p, q)])
    ensures DedupeKey(rt.sha256, [p, q], since, c, e) == DedupeKey(rt.sha256, [Renamed(p, q)], since, c, e)
    ensures multiset(CoveredKeys([p, q], since)) != multiset(CoveredKeys([Renamed(p, q)], since))
  {
    RenamedIsVerified(rt, p, q);
    RenamedHasText(p, q, since, c, e);
    RenamedCoversLess(p, q, since);
  }

  lemma RenamedIsVerified(rt: Runtime, p: Form, q: Form)
    requires Verified(rt, p) && Verified(rt, q)
    ensures AllVerified(rt, [p, q]) && AllVerified(rt, [Renamed(p, q)])
  {
    assert ContentOf(Renamed(p, q)) == ContentOf(q);
  }

  lemma RenamedHasText(p: Form, q: Form, since: int, c: P.Compression, e: P.Encryption)
    requires p.updatedAtMs > since && q.updatedAtMs > since && !FormEarlier(q, p)
    ensures CoveredText([p, q], since, c, e) == CoveredText([Renamed(p, q)], since, c, e)
  {
    TwoForms(p, q, since);
    OneForm(Renamed(p, q), since);
    SpelledOut([KeyOf(p)], KeyOf(q));
    assert [KeyOf(p)] + [KeyOf(q)] == [KeyOf(p), KeyOf(q)];
    assert Spelled([KeyOf(p)], KeyOf(q)) == KeyOf(Renamed(p, q));
  }

  lemma RenamedCoversLess(p: Form, q: Form, since: int)
    requires p.updatedAtMs > since && q.updatedAtMs > since
    ensures multiset(CoveredKeys([p, q], since)) != multiset(CoveredKeys([Renamed(p, q)], since))
  {
    var r := Renamed(p, q);
    CoveredSnoc([], p, since);
    CoveredSnoc([p], q, since);
    CoveredSnoc([], r, since);
    assert [] + [p] == [p] && [p] + [q] == [p, q] && [] + [r] == [r];
    assert |multiset(CoveredKeys([p, q], since))| == 2 && |multiset(CoveredKeys([r], since))| == 1;
  }
}
