/**
 The backup file, format version 1: a header line, one line per concept and a footer line
 that counts and hashes them; or, encrypted, the header line and one line of base64.
 */
module BackupFormat {
  import opened Wrappers
  import opened Ordering
  import opened JsonText
  import opened Canonical
  import opened InsertionMap
  import opened BackupSchema
  import opened Chunker
  import opened Envelope
  import T = TextLines

  /** The runtime's codecs: UTF-8, SHA-256 in hex, base64 and the cipher. */
  datatype Tools = Tools(
    formats: Formats,
    encode: string -> Bytes,
    decode: Bytes -> string,
    hash: string -> string,
    toBase64: Bytes -> string,
    fromBase64: string -> Bytes,
    cipher: Cipher)

  /** `/^[A-Za-z0-9+/]+={0,2}$/` */
  predicate IsBase64(s: string) {
    exists n :: |s| - 2 <= n <= |s| && 0 < n && IsBase64Upto(s, n)
  }

  predicate IsBase64Upto(s: string, n: int) {
    && 0 < n <= |s|
    && (forall i :: 0 <= i < n ==> IsBase64Char(s[i]))
    && (forall i :: n <= i < |s| ==> s[i] == '=')
  }

  ghost predicate LawfulTools(x: Tools) {
    && LawfulCipher(x.cipher)
    && (forall s :: x.decode(x.encode(s)) == s)
    && (forall s :: IsHash(x.hash(s)))
    && (forall b :: x.fromBase64(x.toBase64(b)) == b && (b != [] ==> IsBase64(x.toBase64(b))))
    && (forall b :: |b| == NONCE_BYTES ==> IsNonceText(x.toBase64(b)))
    && (forall s :: x.formats.isUuid(s) ==> |s| == 36)
  }

  predicate IsNonceText(s: string) {
    |s| == 16 && forall i :: 0 <= i < |s| ==> IsBase64Char(s[i])
  }

  // ------------------------------------------------------------ counting

  function CountOf(records: seq<Json>, ns: string): nat
  {
    if records == [] then 0
    else CountOf(records[..|records| - 1], ns) + if RecordNamespace(records[|records| - 1]) == ns then 1 else 0
  }

  function Count(m: JsMap<nat>, ns: string): JsMap<nat> {
    m.Put(ns, (if ns in m.entries then m.entries[ns] else 0) + 1)
  }

  function Tally(records: seq<Json>): (m: JsMap<nat>)
    ensures m.Valid()
  {
    if records == [] then Empty()
    else Count(Tally(records[..|records| - 1]), RecordNamespace(records[|records| - 1]))
  }

  /** `[...counts]` as own properties. */
  function Entries(m: JsMap<nat>): (ms: seq<Member>)
    requires m.Valid()
    ensures |ms| == |m.keys| && AreCounts(ms) && DistinctKeys(ms)
    ensures forall i :: 0 <= i < |ms| ==> ms[i] == Member(m.keys[i], Num(m.entries[m.keys[i]]))
  {
    seq(|m.keys|, i requires 0 <= i < |m.keys| => Member(m.keys[i], Num(m.entries[m.keys[i]])))
  }

  /** Concepts per namespace, in key order. */
  function NamespaceCounts(records: seq<Json>): (counts: seq<Member>)
    ensures AreCounts(counts)
  {
    OrderedCounts(Entries(Tally(records)));
    Ordered(Entries(Tally(records)))
  }

  method CountNamespaces(records: seq<Json>) returns (counts: seq<Member>)
    ensures counts == NamespaceCounts(records)
  {
    var m: JsMap<nat> := Empty();
    for i := 0 to |records|
      invariant m == Tally(records[..i])
    {
      assert records[..i + 1][..i] == records[..i];
      m := Count(m, RecordNamespace(records[i]));
    }
    assert records[..|records|] == records;
    counts := SortedObject(Entries(m));
  }

  lemma {:induction false} TallyCounts(records: seq<Json>, ns: string)
    ensures ns in Tally(records).entries <==> CountOf(records, ns) > 0
    ensures ns in Tally(records).entries ==> Tally(records).entries[ns] == CountOf(records, ns)
  {
    if records != [] {
      TallyCounts(records[..|records| - 1], ns);
    }
  }

  /** The counts an object holds; of repeated keys the last one counts. */
  function CountMap(ms: seq<Member>): map<string, int>
    requires AreCounts(ms)
  {
    if ms == [] then map[]
    else CountMap(ms[..|ms| - 1])[ms[|ms| - 1].key := ms[|ms| - 1].value.n]
  }

  lemma {:induction false} CountMapEntry(ms: seq<Member>, i: nat)
    requires AreCounts(ms) && DistinctKeys(ms) && i < |ms|
    ensures ms[i].key in CountMap(ms) && CountMap(ms)[ms[i].key] == ms[i].value.n
  {
    if i < |ms| - 1 {
      CountMapEntry(ms[..|ms| - 1], i);
    }
  }

  lemma {:induction false} CountMapKey(ms: seq<Member>, k: string) returns (i: nat)
    requires AreCounts(ms) && k in CountMap(ms)
    ensures i < |ms| && ms[i].key == k
  {
    if ms[|ms| - 1].key == k {
      i := |ms| - 1;
    } else {
      i := CountMapKey(ms[..|ms| - 1], k);
    }
  }

  /** The written counts are the tally. */
  lemma CountsAreWritten(records: seq<Json>)
    ensures CountMap(NamespaceCounts(records)) == Tally(records).entries
  {
    OrderedEntries(Tally(records));
  }

  lemma OrderedEntries(m: JsMap<nat>)
    requires m.Valid()
    ensures AreCounts(Ordered(Entries(m))) && CountMap(Ordered(Entries(m))) == m.entries
  {
    var es := Entries(m);
    SortKeepsElements(es, MemberLess);
    DistinctAfterReordering(es, Ordered(es));
    OrderedCounts(es);
    SameCounts(es, Ordered(es));
    EntriesCount(m);
  }

  lemma OrderedCounts(es: seq<Member>)
    requires AreCounts(es)
    ensures AreCounts(Ordered(es))
  {
    SortKeepsElements(es, MemberLess);
    forall i | 0 <= i < |es| ensures Ordered(es)[i] in es {
      assert Ordered(es)[i] in multiset(es);
    }
  }

  lemma CountCarriesOver(a: seq<Member>, b: seq<Member>, k: string)
    requires AreCounts(a) && AreCounts(b) && DistinctKeys(a) && DistinctKeys(b) && multiset(a) == multiset(b)
    requires k in CountMap(a)
    ensures k in CountMap(b) && CountMap(b)[k] == CountMap(a)[k]
  {
    var i := CountMapKey(a, k);
    CountMapEntry(a, i);
    assert a[i] in multiset(b);
    var j :| 0 <= j < |b| && b[j] == a[i];
    CountMapEntry(b, j);
  }

  lemma SameCounts(a: seq<Member>, b: seq<Member>)
    requires AreCounts(a) && AreCounts(b) && DistinctKeys(a) && DistinctKeys(b) && multiset(a) == multiset(b)
    ensures CountMap(a) == CountMap(b)
  {
    forall k | k in CountMap(a) ensures k in CountMap(b) && CountMap(b)[k] == CountMap(a)[k] {
      CountCarriesOver(a, b, k);
    }
    forall k | k in CountMap(b) ensures k in CountMap(a) {
      CountCarriesOver(b, a, k);
    }
  }

  lemma EntriesCount(m: JsMap<nat>)
    requires m.Valid()
    ensures CountMap(Entries(m)) == m.entries
  {
    var es := Entries(m);
    forall k | k in m.entries ensures k in CountMap(es) && CountMap(es)[k] == m.entries[k] {
      var i :| 0 <= i < |m.keys| && m.keys[i] == k;
      CountMapEntry(es, i);
    }
    forall k | k in CountMap(es) ensures k in m.entries {
      var j := CountMapKey(es, k);
    }
  }

  /** The check of the footer's counts: as many keys, and each with the right count. */
  predicate NamespacesMatch(written: seq<Member>, counts: seq<Member>)
    requires AreCounts(written) && AreCounts(counts)
  {
    var w, c := CountMap(written), CountMap(counts);
    |w| == |c| && forall ns :: ns in w ==> ns in c && w[ns] == c[ns]
  }

  lemma MatchingIsEqual(written: seq<Member>, counts: seq<Member>)
    requires AreCounts(written) && AreCounts(counts)
    ensures NamespacesMatch(written, counts) <==> CountMap(written) == CountMap(counts)
  {
    var w, c := CountMap(written), CountMap(counts);
    if NamespacesMatch(written, counts) {
      assert w.Keys <= c.Keys;
      assert |w.Keys| == |c.Keys|;
      SubsetOfSameSize(w.Keys, c.Keys);
    }
  }

  lemma SubsetOfSameSize(a: set<string>, b: set<string>)
    requires a <= b && |a| == |b|
    ensures a == b
  {
    assert b == a + (b - a);
  }

  // ------------------------------------------------------------- encoding

  datatype BackupKey = BackupKey(key: Bytes, keyId: string)

  datatype Input = Input(records: seq<Json>, embeddingModel: string, embeddingDimension: int, key: Option<BackupKey>)

  function AadFor(backupId: string): string {
    BACKUP_FORMAT + "/1:" + backupId
  }

  function HeaderOf(x: Tools, input: Input, backupId: string, createdAt: string, nonce: Bytes): Header {
    Header(backupId, createdAt, input.embeddingModel, input.embeddingDimension,
           if input.key.None? then None
           else Some(Encryption(input.key.value.keyId, x.toBase64(nonce), AadFor(backupId))))
  }

  function PrintAll(records: seq<Json>): (lines: seq<string>)
    ensures |lines| == |records| && forall i :: 0 <= i < |records| ==> lines[i] == Print(records[i])
  {
    seq(|records|, i requires 0 <= i < |records| => Print(records[i]))
  }

  function HeaderLine(header: Header): string {
    Print(HeaderJson(header)) + "\n"
  }

  function FooterOf(x: Tools, header: Header, records: seq<Json>): Footer
  {
    Footer(|records|, NamespaceCounts(records), x.hash(HeaderLine(header) + T.Joined(PrintAll(records))))
  }

  function Body(x: Tools, header: Header, records: seq<Json>): string
  {
    T.Joined(PrintAll(records)) + Print(FooterJson(FooterOf(x, header, records))) + "\n"
  }

  /** `encodeBackup` with its random ids and the time as parameters. */
  function Encoded(x: Tools, input: Input, backupId: string, createdAt: string, nonce: Bytes): Bytes
  {
    var header := HeaderOf(x, input, backupId, createdAt, nonce);
    var body := Body(x, header, input.records);
    if input.key.None? then x.encode(HeaderLine(header) + body)
    else
      var sealed := x.cipher.encrypt(x.encode(body), input.key.value.key, nonce, x.encode(AadFor(backupId)));
      x.encode(HeaderLine(header) + x.toBase64(sealed) + "\n")
  }

  // ------------------------------------------------------------- decoding

  datatype BackupError =
    | NotABackup
    | LineNotJson(line: nat)
    | NewerVersion(version: int)
    | BadHeader
    | AadMismatch
    | NoKey(keyId: string)
    | WrongKey(neededKeyId: string, configuredKeyId: string)
    | NotBase64
    | DecryptionFailed
    | BadFooter
    | BadRecord(line: nat)
    | NoFooter
    | ChecksumMismatch
    | CountMismatch(counted: nat, held: nat)
    | NamespaceMismatch
    | DuplicateId(line: nat)

  datatype Decoded = Decoded(header: Header, records: seq<Json>, footer: Footer)

  function ReadHeader(x: Tools, line: string): Result<Header, BackupError> {
    match Parse(line)
    case None => Err(LineNotJson(1))
    case Some(raw) =>
      if !raw.Obj? || GetString(raw.members, "format") != Some(BACKUP_FORMAT) then Err(NotABackup)
      else
        var version := GetInt(raw.members, "formatVersion");
        if version.Some? && version.value > BACKUP_FORMAT_VERSION then Err(NewerVersion(version.value))
        else match ParseHeader(x.formats, raw)
          case None => Err(BadHeader)
          case Some(h) => Ok(h)
  }

  /** `openBytes`: None when it throws. */
  function OpenBytes(x: Tools, sealed: Bytes, key: Bytes, nonce: Bytes, aad: string): Option<Bytes> {
    if |sealed| < TAG_BYTES || |nonce| != NONCE_BYTES || |key| != KEY_BYTES then None
    else x.cipher.decrypt(sealed, key, nonce, x.encode(aad))
  }

  /** The plaintext behind the header. */
  function OpenBody(x: Tools, header: Header, body: string, key: Option<BackupKey>): Result<string, BackupError> {
    if header.encryption.None? then Ok(body)
    else
      var enc := header.encryption.value;
      if enc.aad != AadFor(header.backupId) then Err(AadMismatch)
      else if key.None? then Err(NoKey(enc.keyId))
      else if key.value.keyId != enc.keyId then Err(WrongKey(enc.keyId, key.value.keyId))
      else
        var sealedLine := if |body| > 0 && body[|body| - 1] == '\n' then body[..|body| - 1] else body;
        if !IsBase64(sealedLine) then Err(NotBase64)
        else match OpenBytes(x, x.fromBase64(sealedLine), key.value.key, x.fromBase64(enc.nonce), enc.aad)
          case None => Err(BackupError.DecryptionFailed)
          case Some(bytes) => Ok(x.decode(bytes))
  }

  predicate IsFooterLine(raw: Json) {
    TypeOf(raw) == Some("footer")
  }

  /** The records on `lines`, or the first line that holds none; line 1 of the file is the header. */
  function ReadRecords(x: Tools, lines: seq<string>): (r: Result<seq<Json>, BackupError>)
    ensures r.Ok? ==> |r.value| == |lines|
  {
    if lines == [] then Ok([])
    else
      var n := |lines| - 1;
      match ReadRecords(x, lines[..n])
      case Err(e) => Err(e)
      case Ok(records) =>
        match Parse(lines[n])
        case None => Err(LineNotJson(n + 2))
        case Some(raw) => if x.formats.isRecord(raw) then Ok(records + [raw]) else Err(BadRecord(n + 2))
  }

  /** The footer on the last line, behind `n` others. */
  function ReadFooter(x: Tools, line: string, n: nat): (r: Result<Footer, BackupError>)
    ensures r.Ok? ==> AreCounts(r.value.namespaces)
  {
    match Parse(line)
    case None => Err(LineNotJson(n + 2))
    case Some(raw) =>
      if !IsFooterLine(raw) then Err(if x.formats.isRecord(raw) then NoFooter else BadRecord(n + 2))
      else match ParseFooter(raw)
        case None => Err(BadFooter)
        case Some(f) => Ok(f)
  }

  function IdsBefore(records: seq<Json>, i: nat): set<string>
    requires i <= |records|
  {
    set j | 0 <= j < i :: RecordId(records[j])
  }

  /** The first record whose id occurred before. */
  function FirstDuplicate(records: seq<Json>, i: nat): Option<nat>
    requires i <= |records|
    decreases |records| - i
  {
    if i == |records| then None
    else if RecordId(records[i]) in IdsBefore(records, i) then Some(i)
    else FirstDuplicate(records, i + 1)
  }

  /** The footer against the lines it covers. */
  function Verify(x: Tools, covered: string, records: seq<Json>, footer: Footer): Option<BackupError>
    requires AreCounts(footer.namespaces)
  {
    if x.hash(covered) != footer.sha256 then Some(ChecksumMismatch)
    else if footer.conceptCount != |records| then Some(CountMismatch(footer.conceptCount, |records|))
    else VerifyRecords(records, footer)
  }

  function VerifyRecords(records: seq<Json>, footer: Footer): Option<BackupError>
    requires AreCounts(footer.namespaces)
  {
    if !NamespacesMatch(footer.namespaces, NamespaceCounts(records)) then Some(NamespaceMismatch)
    else
      var duplicate := FirstDuplicate(records, 0);
      if duplicate.Some? then Some(DuplicateId(duplicate.value + 2)) else None
  }

  /** What the lines hold, before it is verified: the records, the text the footer covers and the footer. */
  function ParsedLines(x: Tools, headerLine: string, lines: seq<string>)
    : (r: Result<(seq<Json>, string, Footer), BackupError>)
    ensures r.Ok? ==> AreCounts(r.value.2.namespaces)
  {
    if lines == [] then Err(NoFooter)
    else
      var n := |lines| - 1;
      match ReadRecords(x, lines[..n])
      case Err(e) => Err(e)
      case Ok(records) =>
        match ReadFooter(x, lines[n], n)
        case Err(e) => Err(e)
        case Ok(footer) => Ok((records, headerLine + T.Joined(lines[..n]), footer))
  }

  function DecodedLines(x: Tools, header: Header, headerLine: string, lines: seq<string>)
    : Result<Decoded, BackupError>
  {
    match ParsedLines(x, headerLine, lines)
    case Err(e) => Err(e)
    case Ok((records, covered, footer)) =>
      match Verify(x, covered, records, footer)
      case Some(e) => Err(e)
      case None => Ok(Decoded(header, records, footer))
  }

  function DecodedBackup(x: Tools, bytes: Bytes, key: Option<BackupKey>): Result<Decoded, BackupError> {
    var text := x.decode(bytes);
    var n := T.NewlineAt(text);
    if n == |text| then Err(NotABackup)
    else
      match ReadHeader(x, text[..n])
      case Err(e) => Err(e)
      case Ok(header) =>
        match OpenBody(x, header, text[n + 1..], key)
        case Err(e) => Err(e)
        case Ok(body) => DecodedLines(x, header, text[..n + 1], T.LinesOf(body))
  }

  // -------------------------------------------------- the decoding loops

  lemma {:induction false} FirstBadLineStays(x: Tools, lines: seq<string>, n: nat)
    requires n <= |lines| && ReadRecords(x, lines[..n]).Err?
    ensures ReadRecords(x, lines) == ReadRecords(x, lines[..n])
    decreases |lines|
  {
    if n == |lines| {
      assert lines[..n] == lines;
    } else {
      var init := lines[..|lines| - 1];
      assert init[..n] == lines[..n];
      FirstBadLineStays(x, init, n);
    }
  }

  /** The loop before line `i`: what the lines so far hold. */
  ghost predicate ReadSoFar(x: Tools, headerLine: string, lines: seq<string>, i: nat, records: seq<Json>,
                            covered: string) {
    && i <= |lines| && ReadRecords(x, lines[..i]) == Ok(records)
    && covered == headerLine + T.Joined(lines[..i])
  }

  lemma NextRecord(x: Tools, headerLine: string, lines: seq<string>, i: nat, records: seq<Json>, covered: string,
                   raw: Json, records': seq<Json>, covered': string)
    requires i < |lines| && ReadSoFar(x, headerLine, lines, i, records, covered)
    requires Parse(lines[i]) == Some(raw) && x.formats.isRecord(raw)
    requires records' == records + [raw] && covered' == covered + lines[i] + "\n"
    ensures ReadSoFar(x, headerLine, lines, i + 1, records', covered')
  {
    var init := lines[..i];
    assert lines[..i + 1] == init + [lines[i]];
    T.JoinedSnoc(init, lines[i]);
    ReadSnoc(x, init, lines[i], records, raw);
    JoinCovered(headerLine, T.Joined(init), lines[i]);
  }

  lemma ReadSnoc(x: Tools, init: seq<string>, line: string, records: seq<Json>, raw: Json)
    requires ReadRecords(x, init) == Ok(records) && Parse(line) == Some(raw) && x.formats.isRecord(raw)
    ensures ReadRecords(x, init + [line]) == Ok(records + [raw])
  {
    assert (init + [line])[..|init|] == init;
  }

  lemma JoinCovered(header: string, joined: string, line: string)
    ensures header + joined + line + "\n" == header + (joined + line + "\n")
  {
  }

  /** A line that is neither a record nor the footer decides the outcome. */
  lemma LineFails(x: Tools, headerLine: string, lines: seq<string>, i: nat, records: seq<Json>, covered: string,
                  e: BackupError)
    requires i < |lines| && ReadSoFar(x, headerLine, lines, i, records, covered)
    requires LineError(x, lines[i], i, i == |lines| - 1) == Some(e)
    ensures ParsedLines(x, headerLine, lines) == Err(e)
  {
    if i < |lines| - 1 {
      var init := lines[..|lines| - 1];
      assert init[..i + 1][..i] == lines[..i];
      FirstBadLineStays(x, init, i + 1);
    }
  }

  /** What is wrong with a line. */
  function LineError(x: Tools, line: string, i: nat, isLast: bool): Option<BackupError> {
    match Parse(line)
    case None => Some(LineNotJson(i + 2))
    case Some(raw) =>
      if isLast && IsFooterLine(raw) then if ParseFooter(raw).None? then Some(BadFooter) else None
      else if x.formats.isRecord(raw) then None
      else Some(BadRecord(i + 2))
  }

  lemma FooterFound(x: Tools, headerLine: string, lines: seq<string>, i: nat, records: seq<Json>, covered: string,
                    raw: Json, footer: Footer)
    requires i + 1 == |lines| && ReadSoFar(x, headerLine, lines, i, records, covered)
    requires Parse(lines[i]) == Some(raw) && IsFooterLine(raw) && ParseFooter(raw) == Some(footer)
    ensures ParsedLines(x, headerLine, lines) == Ok((records, covered, footer))
  {
  }

  lemma NoFooterFound(x: Tools, headerLine: string, lines: seq<string>, i: nat, records: seq<Json>, covered: string,
                      raw: Json)
    requires i + 1 == |lines| && ReadSoFar(x, headerLine, lines, i, records, covered)
    requires Parse(lines[i]) == Some(raw) && x.formats.isRecord(raw) && !IsFooterLine(raw)
    ensures ParsedLines(x, headerLine, lines) == Err(NoFooter)
  {
  }

  /** The loop over the lines: collect the records, hash what precedes the footer. */
  method ReadLines(x: Tools, headerLine: string, lines: seq<string>)
    returns (r: Result<(seq<Json>, string, Footer), BackupError>)
    ensures r == ParsedLines(x, headerLine, lines)
  {
    var records: seq<Json> := [];
    var covered := headerLine;
    for i := 0 to |lines|
      invariant ReadSoFar(x, headerLine, lines, i, records, covered)
      invariant i == |lines| > 0 ==> ParsedLines(x, headerLine, lines) == Err(NoFooter)
    {
      var raw := Parse(lines[i]);
      if raw.None? {
        LineFails(x, headerLine, lines, i, records, covered, LineNotJson(i + 2));
        return Err(LineNotJson(i + 2));
      }
      if IsFooterLine(raw.value) && i == |lines| - 1 {
        var parsed := ParseFooter(raw.value);
        if parsed.None? {
          LineFails(x, headerLine, lines, i, records, covered, BadFooter);
          return Err(BadFooter);
        }
        FooterFound(x, headerLine, lines, i, records, covered, raw.value, parsed.value);
        return Ok((records, covered, parsed.value));
      }
      if !x.formats.isRecord(raw.value) {
        LineFails(x, headerLine, lines, i, records, covered, BadRecord(i + 2));
        return Err(BadRecord(i + 2));
      }
      if i == |lines| - 1 {
        NoFooterFound(x, headerLine, lines, i, records, covered, raw.value);
      }
      var covered', records' := covered + lines[i] + "\n", records + [raw.value];
      NextRecord(x, headerLine, lines, i, records, covered, raw.value, records', covered');
      covered, records := covered', records';
    }
    return Err(NoFooter);
  }

  /** The checks behind the loop. */
  method VerifyBackup(x: Tools, header: Header, covered: string, records: seq<Json>, footer: Footer)
    returns (r: Result<Decoded, BackupError>)
    requires AreCounts(footer.namespaces)
    ensures r == match Verify(x, covered, records, footer)
      case Some(e) => Err(e)
      case None => Ok(Decoded(header, records, footer))
  {
    if x.hash(covered) != footer.sha256 {
      return Err(ChecksumMismatch);
    }
    if footer.conceptCount != |records| {
      return Err(CountMismatch(footer.conceptCount, |records|));
    }
    var counts := CountNamespaces(records);
    if !NamespacesMatch(footer.namespaces, counts) {
      return Err(NamespaceMismatch);
    }
    var duplicate := FindDuplicate(records);
    if duplicate.Some? {
      return Err(DuplicateId(duplicate.value + 2));
    }
    return Ok(Decoded(header, records, footer));
  }

  /** The ids seen so far are kept in a set. */
  method FindDuplicate(records: seq<Json>) returns (duplicate: Option<nat>)
    ensures duplicate == FirstDuplicate(records, 0)
  {
    var ids: set<string> := {};
    for i := 0 to |records|
      invariant ids == IdsBefore(records, i)
      invariant FirstDuplicate(records, 0) == FirstDuplicate(records, i)
    {
      OneMoreId(records, i);
      var id := RecordId(records[i]);
      if id in ids {
        return Some(i);
      }
      ids := ids + {id};
    }
    return None;
  }

  lemma OneMoreId(records: seq<Json>, i: nat)
    requires i < |records|
    ensures IdsBefore(records, i + 1) == IdsBefore(records, i) + {RecordId(records[i])}
  {
  }

  method DecodeLines(x: Tools, header: Header, headerLine: string, lines: seq<string>)
    returns (r: Result<Decoded, BackupError>)
    ensures r == DecodedLines(x, header, headerLine, lines)
  {
    var parsed := ReadLines(x, headerLine, lines);
    if parsed.Err? {
      return Err(parsed.error);
    }
    var (records, covered, footer) := parsed.value;
    r := VerifyBackup(x, header, covered, records, footer);
  }

  method DecodeBackup(x: Tools, bytes: Bytes, key: Option<BackupKey>) returns (r: Result<Decoded, BackupError>)
    ensures r == DecodedBackup(x, bytes, key)
  {
    var text := x.decode(bytes);
    var firstNewline := T.NewlineAt(text);
    if firstNewline == |text| {
      return Err(NotABackup);
    }
    var header := ReadHeader(x, text[..firstNewline]);
    if header.Err? {
      return Err(header.error);
    }
    var body := OpenBody(x, header.value, text[firstNewline + 1..], key);
    if body.Err? {
      return Err(body.error);
    }
    r := DecodeLines(x, header.value, text[..firstNewline + 1], T.LinesOf(body.value));
  }
}
