/**
 Which backup files are accepted, and that decoding inverts encoding.
 */
module BackupRoundTrip {
  import opened Wrappers
  import opened JsonText
  import opened BackupSchema
  import opened Chunker
  import opened Envelope
  import opened BackupFormat
  import T = TextLines

  // ------------------------------------------------- what is accepted

  ghost predicate AreRecords(x: Tools, records: seq<Json>) {
    forall i :: 0 <= i < |records| ==> x.formats.isRecord(records[i])
  }

  ghost predicate DistinctIds(records: seq<Json>)
  {
    forall i, j :: 0 <= i < j < |records| ==> RecordId(records[i]) != RecordId(records[j])
  }

  /** Each text is a line that holds its record. */
  ghost predicate HoldRecords(x: Tools, texts: seq<string>, records: seq<Json>) {
    && |texts| == |records|
    && forall i :: 0 <= i < |texts| ==> Parse(texts[i]) == Some(records[i]) && x.formats.isRecord(records[i])
  }

  ghost predicate HoldsFooter(text: string, footer: Footer) {
    Parse(text).Some? && IsFooterLine(Parse(text).value) && ParseFooter(Parse(text).value) == Some(footer)
  }

  /** The footer names every namespace that occurs, with the number of its records. */
  ghost predicate CountsHold(footer: Footer, records: seq<Json>)
    requires AreCounts(footer.namespaces)
  {
    var m := CountMap(footer.namespaces);
    forall ns :: (ns in m <==> CountOf(records, ns) > 0) && (ns in m ==> m[ns] == CountOf(records, ns))
  }

  ghost predicate FooterFits(x: Tools, covered: string, records: seq<Json>, footer: Footer)
    requires AreCounts(footer.namespaces)
  {
    && footer.sha256 == x.hash(covered)
    && footer.conceptCount == |records|
    && CountsHold(footer, records)
    && DistinctIds(records)
  }

  /** `body` is one line per record and one footer line; only the very last newline may be missing. */
  ghost predicate HoldsBackup(x: Tools, headerLine: string, body: string, lines: seq<string>, records: seq<Json>,
                              footer: Footer) {
    && lines != [] && T.IsText(body, lines) && AreCounts(footer.namespaces)
    && var n := |lines| - 1;
       && HoldRecords(x, lines[..n], records) && HoldsFooter(lines[n], footer)
       && FooterFits(x, headerLine + T.Joined(lines[..n]), records, footer)
  }

  lemma {:induction false} RecordsRead(x: Tools, texts: seq<string>, records: seq<Json>)
    ensures ReadRecords(x, texts) == Ok(records) <==> HoldRecords(x, texts, records)
  {
    if texts != [] && records != [] {
      var n, m := |texts| - 1, |records| - 1;
      RecordsRead(x, texts[..n], records[..m]);
      assert records == records[..m] + [records[m]];
      if ReadRecords(x, texts) == Ok(records) {
        LastRecordRead(x, texts, records);
      }
    }
  }

  lemma LastRecordRead(x: Tools, texts: seq<string>, records: seq<Json>)
    requires texts != [] && records != [] && ReadRecords(x, texts) == Ok(records)
    ensures ReadRecords(x, texts[..|texts| - 1]) == Ok(records[..|records| - 1])
    ensures Parse(texts[|texts| - 1]) == Some(records[|records| - 1]) && x.formats.isRecord(records[|records| - 1])
  {
    var before := ReadRecords(x, texts[..|texts| - 1]).value;
    assert records[..|records| - 1] == before;
  }

  lemma {:induction false} NoDuplicateMeans(records: seq<Json>, i: nat)
    requires i <= |records|
    ensures FirstDuplicate(records, i).None?
      <==> forall j, k :: 0 <= j < k < |records| && i <= k ==> RecordId(records[j]) != RecordId(records[k])
    decreases |records| - i
  {
    if i < |records| {
      NoDuplicateMeans(records, i + 1);
    }
  }

  lemma CountsExactly(footer: Footer, records: seq<Json>)
    requires AreCounts(footer.namespaces)
    ensures NamespacesMatch(footer.namespaces, NamespaceCounts(records)) <==> CountsHold(footer, records)
  {
    MatchingIsEqual(footer.namespaces, NamespaceCounts(records));
    CountsAreWritten(records);
    TallyExactly(CountMap(footer.namespaces), records);
  }

  lemma TallyExactly(m: map<string, int>, records: seq<Json>)
    ensures m == Tally(records).entries
      <==> forall ns :: (ns in m <==> CountOf(records, ns) > 0) && (ns in m ==> m[ns] == CountOf(records, ns))
  {
    var tally := Tally(records).entries;
    forall ns
      ensures (ns in tally <==> CountOf(records, ns) > 0) && (ns in tally ==> tally[ns] == CountOf(records, ns))
    {
      TallyCounts(records, ns);
    }
    if forall ns :: (ns in m <==> CountOf(records, ns) > 0) && (ns in m ==> m[ns] == CountOf(records, ns)) {
      assert forall ns :: ns in m <==> ns in tally;
    }
  }

  lemma VerifiesExactly(x: Tools, covered: string, records: seq<Json>, footer: Footer)
    requires AreCounts(footer.namespaces)
    ensures Verify(x, covered, records, footer).None? <==> FooterFits(x, covered, records, footer)
  {
    CountsExactly(footer, records);
    NoDuplicateMeans(records, 0);
  }

  lemma FooterRead(x: Tools, line: string, n: nat, footer: Footer)
    ensures ReadFooter(x, line, n) == Ok(footer) <==> HoldsFooter(line, footer)
  {
  }

  /** Accepted are exactly the bodies of records followed by one fitting footer. */
  lemma AcceptedExactly(x: Tools, header: Header, headerLine: string, body: string, d: Decoded)
    ensures DecodedLines(x, header, headerLine, T.LinesOf(body)) == Ok(d)
      <==> d.header == header && exists lines :: HoldsBackup(x, headerLine, body, lines, d.records, d.footer)
  {
    if DecodedLines(x, header, headerLine, T.LinesOf(body)) == Ok(d) {
      AcceptedHolds(x, header, headerLine, body, d);
    }
    if d.header == header {
      forall lines | HoldsBackup(x, headerLine, body, lines, d.records, d.footer)
        ensures DecodedLines(x, header, headerLine, T.LinesOf(body)) == Ok(d)
      {
        HeldIsAccepted(x, header, headerLine, body, lines, d);
      }
    }
  }

  lemma AcceptedHolds(x: Tools, header: Header, headerLine: string, body: string, d: Decoded)
    requires DecodedLines(x, header, headerLine, T.LinesOf(body)) == Ok(d)
    ensures d.header == header && HoldsBackup(x, headerLine, body, T.LinesOf(body), d.records, d.footer)
  {
    var lines := T.LinesOf(body);
    var n := |lines| - 1;
    RecordsRead(x, lines[..n], d.records);
    FooterRead(x, lines[n], n, d.footer);
    VerifiesExactly(x, headerLine + T.Joined(lines[..n]), d.records, d.footer);
    T.LinesExactly(body, lines);
  }

  lemma HeldIsAccepted(x: Tools, header: Header, headerLine: string, body: string, lines: seq<string>, d: Decoded)
    requires d.header == header && HoldsBackup(x, headerLine, body, lines, d.records, d.footer)
    ensures DecodedLines(x, header, headerLine, T.LinesOf(body)) == Ok(d)
  {
    var n := |lines| - 1;
    T.LinesExactly(body, lines);
    RecordsRead(x, lines[..n], d.records);
    FooterRead(x, lines[n], n, d.footer);
    VerifiesExactly(x, headerLine + T.Joined(lines[..n]), d.records, d.footer);
  }

  /** No line before the last is a footer, by the schema of records. */
  lemma OnlyOneFooter(x: Tools, headerLine: string, body: string, lines: seq<string>, records: seq<Json>,
                      footer: Footer, i: nat)
    requires HoldsBackup(x, headerLine, body, lines, records, footer) && i < |lines|
    requires forall v :: x.formats.isRecord(v) <==> IsRecord(v)
    ensures Parse(lines[i]).Some? && (IsFooterLine(Parse(lines[i]).value) <==> i == |lines| - 1)
  {
    if i < |lines| - 1 {
      assert lines[..|lines| - 1][i] == lines[i];
      RecordType(records[i]);
    }
  }

  // ------------------------------------------------------------ round trip

  predicate ValidKey(key: BackupKey) {
    |key.key| == KEY_BYTES && |key.keyId| == 16 && forall i :: 0 <= i < |key.keyId| ==> IsLowerHex(key.keyId[i])
  }

  /** What an export passes in. */
  ghost predicate ValidInput(x: Tools, input: Input, backupId: string, createdAt: string, nonce: Bytes) {
    && AreRecords(x, input.records) && DistinctIds(input.records)
    && x.formats.isUuid(backupId) && x.formats.isDateTime(createdAt) && |nonce| == NONCE_BYTES
    && 1 <= |input.embeddingModel| <= 200 && input.embeddingDimension > 0
    && (input.key.Some? ==> ValidKey(input.key.value))
  }

  /** The lines that are written. */
  function WrittenLines(x: Tools, header: Header, records: seq<Json>): seq<string> {
    PrintAll(records) + [Print(FooterJson(FooterOf(x, header, records)))]
  }

  lemma BodyIsText(x: Tools, header: Header, records: seq<Json>)
    ensures T.IsText(Body(x, header, records), WrittenLines(x, header, records))
  {
    var footer := FooterJson(FooterOf(x, header, records));
    T.JoinedSnoc(PrintAll(records), Print(footer));
    PrintedLines(records, footer);
  }

  /** The body that is written is a backup in the sense of what is accepted. */
  lemma BodyHolds(x: Tools, header: Header, records: seq<Json>)
    requires LawfulTools(x) && AreRecords(x, records) && DistinctIds(records)
    ensures HoldsBackup(x, HeaderLine(header), Body(x, header, records), WrittenLines(x, header, records), records,
                        FooterOf(x, header, records))
  {
    var lines := WrittenLines(x, header, records);
    assert lines[..|lines| - 1] == PrintAll(records);
    BodyIsText(x, header, records);
    PrintedRecords(x, records);
    OwnFooterPrints(x, header, records);
    OwnFooterFits(x, header, records);
  }

  lemma OwnFooterPrints(x: Tools, header: Header, records: seq<Json>)
    requires LawfulTools(x)
    ensures HoldsFooter(Print(FooterJson(FooterOf(x, header, records))), FooterOf(x, header, records))
  {
    OwnHash(x, HeaderLine(header) + T.Joined(PrintAll(records)));
    OwnCounts(x, header, records);
    PrintedFooter(FooterOf(x, header, records));
  }

  lemma OwnHash(x: Tools, covered: string)
    requires LawfulTools(x)
    ensures IsHash(x.hash(covered))
  {
  }

  lemma OwnCounts(x: Tools, header: Header, records: seq<Json>)
    requires IsHash(x.hash(HeaderLine(header) + T.Joined(PrintAll(records))))
    ensures AreCounts(FooterOf(x, header, records).namespaces) && IsHash(FooterOf(x, header, records).sha256)
  {
  }

  lemma PrintedFooter(footer: Footer)
    requires AreCounts(footer.namespaces) && IsHash(footer.sha256)
    ensures HoldsFooter(Print(FooterJson(footer)), footer)
  {
    FooterParses(footer);
    ParseInvertsPrint(FooterJson(footer));
  }

  lemma OwnFooterFits(x: Tools, header: Header, records: seq<Json>)
    requires DistinctIds(records)
    ensures FooterFits(x, HeaderLine(header) + T.Joined(PrintAll(records)), records, FooterOf(x, header, records))
  {
    var footer := FooterOf(x, header, records);
    CountsExactly(footer, records);
    MatchingIsEqual(footer.namespaces, NamespaceCounts(records));
  }

  lemma PrintedLines(records: seq<Json>, footer: Json)
    ensures T.AreLines(PrintAll(records) + [Print(footer)])
  {
    var lines := PrintAll(records) + [Print(footer)];
    forall i | 0 <= i < |lines| ensures T.NoNewline(lines[i]) {
      T.PrintHasNoNewline(if i < |records| then records[i] else footer);
    }
  }

  lemma PrintedRecords(x: Tools, records: seq<Json>)
    requires AreRecords(x, records)
    ensures HoldRecords(x, PrintAll(records), records)
  {
    forall i | 0 <= i < |records| ensures Parse(PrintAll(records)[i]) == Some(records[i]) {
      ParseInvertsPrint(records[i]);
    }
  }

  lemma HeaderIsValid(x: Tools, input: Input, backupId: string, createdAt: string, nonce: Bytes)
    requires LawfulTools(x) && ValidInput(x, input, backupId, createdAt, nonce)
    ensures ValidHeader(x.formats, HeaderOf(x, input, backupId, createdAt, nonce))
  {
    assert |backupId| == 36;
    assert IsNonceText(x.toBase64(nonce));
  }

  lemma HeaderReads(x: Tools, header: Header)
    requires ValidHeader(x.formats, header)
    ensures ReadHeader(x, Print(HeaderJson(header))) == Ok(header)
  {
    ParseInvertsPrint(HeaderJson(header));
    HeaderParses(x.formats, header);
    HeaderLookups(header);
  }

  /** A file of a header line and more text. */
  lemma FileReads(x: Tools, header: Header, rest: string, bytes: Bytes, key: Option<BackupKey>)
    requires ValidHeader(x.formats, header) && x.decode(bytes) == HeaderLine(header) + rest
    ensures DecodedBackup(x, bytes, key) == match OpenBody(x, header, rest, key)
      case Err(e) => Err(e)
      case Ok(body) => DecodedLines(x, header, HeaderLine(header), T.LinesOf(body))
  {
    var line := Print(HeaderJson(header));
    T.PrintHasNoNewline(HeaderJson(header));
    FirstLine(line, rest, x.decode(bytes));
    HeaderReads(x, header);
  }

  lemma FirstLine(line: string, rest: string, text: string)
    requires T.NoNewline(line) && text == line + "\n" + rest
    ensures T.NewlineAt(text) == |line| < |text|
    ensures text[..|line|] == line && text[|line| + 1..] == rest && text[..|line| + 1] == line + "\n"
  {
    T.NewlineComesAfter(line, rest);
  }

  /** The sealed line opens under its key, and under no key with another id. */
  lemma SealedBodyOpens(x: Tools, input: Input, backupId: string, createdAt: string, nonce: Bytes, body: string,
                        key: Option<BackupKey>)
    requires LawfulTools(x) && ValidInput(x, input, backupId, createdAt, nonce) && input.key.Some?
    ensures var header := HeaderOf(x, input, backupId, createdAt, nonce);
      var sealed := x.cipher.encrypt(x.encode(body), input.key.value.key, nonce, x.encode(AadFor(backupId)));
      var plain := OpenBody(x, header, x.toBase64(sealed) + "\n", key);
      && (key == input.key ==> plain == Ok(body))
      && (key.None? || key.value.keyId != input.key.value.keyId ==> plain.Err?)
  {
    var k := input.key.value;
    var sealed := x.cipher.encrypt(x.encode(body), k.key, nonce, x.encode(AadFor(backupId)));
    var line := x.toBase64(sealed);
    assert |sealed| >= TAG_BYTES;
    assert (line + "\n")[..|line|] == line;
    assert x.cipher.decrypt(sealed, k.key, nonce, x.encode(AadFor(backupId))) == Some(x.encode(body));
  }

  /** What a backup reads back as. */
  function Written(x: Tools, input: Input, backupId: string, createdAt: string, nonce: Bytes): Decoded
  {
    var header := HeaderOf(x, input, backupId, createdAt, nonce);
    Decoded(header, input.records, FooterOf(x, header, input.records))
  }

  /** Decoding an encoded backup gives the records back, plain or sealed. */
  lemma DecodeInvertsEncode(x: Tools, input: Input, backupId: string, createdAt: string, nonce: Bytes,
                            key: Option<BackupKey>)
    requires LawfulTools(x) && ValidInput(x, input, backupId, createdAt, nonce)
    requires input.key.Some? ==> key == input.key
    ensures DecodedBackup(x, Encoded(x, input, backupId, createdAt, nonce), key)
      == Ok(Written(x, input, backupId, createdAt, nonce))
  {
    var header := HeaderOf(x, input, backupId, createdAt, nonce);
    var d := Written(x, input, backupId, createdAt, nonce);
    var body := Body(x, header, input.records);
    HeaderIsValid(x, input, backupId, createdAt, nonce);
    BodyHolds(x, header, input.records);
    HeldIsAccepted(x, header, HeaderLine(header), body, WrittenLines(x, header, input.records), d);
    FileOf(x, input, backupId, createdAt, nonce, key);
    if input.key.Some? {
      SealedBodyOpens(x, input, backupId, createdAt, nonce, body, key);
    }
  }

  /** What is behind the header line. */
  function Behind(x: Tools, input: Input, backupId: string, createdAt: string, nonce: Bytes): string
  {
    var body := Body(x, HeaderOf(x, input, backupId, createdAt, nonce), input.records);
    if input.key.None? then body
    else x.toBase64(x.cipher.encrypt(x.encode(body), input.key.value.key, nonce, x.encode(AadFor(backupId)))) + "\n"
  }

  lemma FileOf(x: Tools, input: Input, backupId: string, createdAt: string, nonce: Bytes, key: Option<BackupKey>)
    requires LawfulTools(x)
    requires ValidHeader(x.formats, HeaderOf(x, input, backupId, createdAt, nonce))
    ensures var header := HeaderOf(x, input, backupId, createdAt, nonce);
      DecodedBackup(x, Encoded(x, input, backupId, createdAt, nonce), key)
        == match OpenBody(x, header, Behind(x, input, backupId, createdAt, nonce), key)
           case Err(e) => Err(e)
           case Ok(body) => DecodedLines(x, header, HeaderLine(header), T.LinesOf(body))
  {
    var header, behind := HeaderOf(x, input, backupId, createdAt, nonce), Behind(x, input, backupId, createdAt, nonce);
    var bytes := Encoded(x, input, backupId, createdAt, nonce);
    EncodedText(x, input, backupId, createdAt, nonce);
    Decodes(x, HeaderLine(header) + behind, bytes);
    FileReads(x, header, behind, bytes, key);
  }

  lemma Decodes(x: Tools, text: string, bytes: Bytes)
    requires LawfulTools(x) && bytes == x.encode(text)
    ensures x.decode(bytes) == text
  {
  }

  lemma EncodedText(x: Tools, input: Input, backupId: string, createdAt: string, nonce: Bytes)
    ensures Encoded(x, input, backupId, createdAt, nonce)
      == x.encode(HeaderLine(HeaderOf(x, input, backupId, createdAt, nonce))
                  + Behind(x, input, backupId, createdAt, nonce))
  {
    if input.key.Some? {
      var header := HeaderOf(x, input, backupId, createdAt, nonce);
      var body := x.encode(Body(x, header, input.records));
      var sealed := x.cipher.encrypt(body, input.key.value.key, nonce, x.encode(AadFor(backupId)));
      Associate(HeaderLine(header), x.toBase64(sealed), "\n");
    }
  }

  lemma Associate(a: string, b: string, c: string)
    ensures a + b + c == a + (b + c)
  {
  }

  /** An encrypted backup decodes exactly under its key, as long as no other key has its id. */
  lemma SealedBackupNeedsItsKey(x: Tools, input: Input, backupId: string, createdAt: string, nonce: Bytes,
                                key: Option<BackupKey>)
    requires LawfulTools(x) && ValidInput(x, input, backupId, createdAt, nonce) && input.key.Some?
    requires key.Some? && key.value.keyId == input.key.value.keyId ==> key == input.key
    ensures DecodedBackup(x, Encoded(x, input, backupId, createdAt, nonce), key).Ok? <==> key == input.key
  {
    if key == input.key {
      DecodeInvertsEncode(x, input, backupId, createdAt, nonce, key);
    } else {
      HeaderIsValid(x, input, backupId, createdAt, nonce);
      FileOf(x, input, backupId, createdAt, nonce, key);
      SealedBodyOpens(x, input, backupId, createdAt, nonce,
                      Body(x, HeaderOf(x, input, backupId, createdAt, nonce), input.records), key);
    }
  }
}
