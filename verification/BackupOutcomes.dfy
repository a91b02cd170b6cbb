/**
 Backup files from outside: what an encoded file holds, line by line, and what each error of a
 decoding says about the file and the configured key.
 */
module BackupOutcomes {
  import opened Wrappers
  import opened JsonText
  import opened Canonical
  import opened BackupSchema
  import opened BackupMeaning
  import opened Chunker
  import opened Envelope
  import opened BackupFormat
  import opened BackupRoundTrip
  import T = TextLines

  // ------------------------------------------------------ what is written

  /** The header that an export writes. */
  ghost function ExportHeader(x: Tools, input: Input, backupId: string, createdAt: string, nonce: Bytes): Header {
    var encryption :=
      match input.key
      case Some(key) => Some(Encryption(key.keyId, x.toBase64(nonce), "polytician-backup/1:" + backupId))
      case None => None;
    Header(backupId, createdAt, input.embeddingModel, input.embeddingDimension, encryption)
  }

  /** What follows the header line: the lines, or one line of base64 that seals them. */
  ghost function Rest(x: Tools, input: Input, backupId: string, nonce: Bytes, lines: seq<string>): string {
    match input.key
    case Some(key) =>
      var aad := "polytician-backup/1:" + backupId;
      x.toBase64(x.cipher.encrypt(x.encode(T.Joined(lines)), key.key, nonce, x.encode(aad))) + "\n"
    case None => T.Joined(lines)
  }

  /** An encoded file: a header line, and plain or sealed one line per record and a fitting footer. */
  lemma EncodedIsExact(x: Tools, input: Input, backupId: string, createdAt: string, nonce: Bytes)
    returns (first: string, lines: seq<string>, footer: Footer)
    requires LawfulTools(x) && ValidInput(x, input, backupId, createdAt, nonce)
    ensures Parse(first).Some?
    ensures MeaningOf(Parse(first).value) == HeaderMeaning(ExportHeader(x, input, backupId, createdAt, nonce))
    ensures HoldsBackup(x, first + "\n", T.Joined(lines), lines, input.records, footer)
    ensures Encoded(x, input, backupId, createdAt, nonce)
      == x.encode(first + "\n" + Rest(x, input, backupId, nonce, lines))
  {
    var header := HeaderOf(x, input, backupId, createdAt, nonce);
    first := Print(HeaderJson(header));
    lines := WrittenLines(x, header, input.records);
    footer := FooterOf(x, header, input.records);
    HeaderIsExact(x, input, backupId, createdAt, nonce);
    BodyHolds(x, header, input.records);
    RestIsExact(x, input, backupId, createdAt, nonce);
    BackupRoundTrip.Associate(first, "\n", Rest(x, input, backupId, nonce, lines));
  }

  lemma HeaderIsExact(x: Tools, input: Input, backupId: string, createdAt: string, nonce: Bytes)
    ensures
      var parsed := Parse(Print(HeaderJson(HeaderOf(x, input, backupId, createdAt, nonce))));
      parsed.Some? && MeaningOf(parsed.value) == HeaderMeaning(ExportHeader(x, input, backupId, createdAt, nonce))
  {
    var header := HeaderOf(x, input, backupId, createdAt, nonce);
    ParseInvertsPrint(HeaderJson(header));
    HeaderMeans(header);
    AadIsExact(backupId);
  }

  lemma AadIsExact(backupId: string)
    ensures AadFor(backupId) == "polytician-backup/1:" + backupId
  {
    assert "polytician-backup" + "/1:" == "polytician-backup/1:";
  }

  lemma RestIsExact(x: Tools, input: Input, backupId: string, createdAt: string, nonce: Bytes)
    ensures
      var header := HeaderOf(x, input, backupId, createdAt, nonce);
      var lines := WrittenLines(x, header, input.records);
      && Body(x, header, input.records) == T.Joined(lines)
      && Encoded(x, input, backupId, createdAt, nonce)
         == x.encode(HeaderLine(header) + Rest(x, input, backupId, nonce, lines))
  {
    var header := HeaderOf(x, input, backupId, createdAt, nonce);
    BodyIsJoined(x, header, input.records);
    EncodedText(x, input, backupId, createdAt, nonce);
    AadIsExact(backupId);
    assert Rest(x, input, backupId, nonce, WrittenLines(x, header, input.records))
      == BackupRoundTrip.Behind(x, input, backupId, createdAt, nonce);
  }

  lemma BodyIsJoined(x: Tools, header: Header, records: seq<Json>)
    ensures Body(x, header, records) == T.Joined(WrittenLines(x, header, records))
  {
    T.JoinedSnoc(PrintAll(records), Print(FooterJson(FooterOf(x, header, records))));
  }

  /** The id and the namespace of a record are what it says under those keys. */
  lemma RecordFieldsMean(v: Json, s: string)
    requires WellFormed(v) && IsRecord(v)
    ensures
      var m := MeaningOfMembers(v.members);
      && "id" in m && "namespace" in m
      && (RecordId(v) == s <==> m["id"] == MStr(s)) && (RecordNamespace(v) == s <==> m["namespace"] == MStr(s))
  {
    RecordNames(v);
    LookupMeans(v.members, "id");
    LookupMeans(v.members, "namespace");
  }

  lemma RecordNames(v: Json)
    requires IsRecord(v)
    ensures GetString(v.members, "id").Some? && GetString(v.members, "namespace").Some?
  {
    assert RECORD_SCHEMA[1] == IDENTITY_SCHEMA[1] == ("id", AnyString);
    assert RECORD_SCHEMA[2] == IDENTITY_SCHEMA[2] == ("namespace", AnyString);
    assert Meets(Lookup(v.members, RECORD_SCHEMA[1].0), RECORD_SCHEMA[1].1);
    assert Meets(Lookup(v.members, RECORD_SCHEMA[2].0), RECORD_SCHEMA[2].1);
  }

  // --------------------------------------------------- why it is refused

  /** `v` is an object with this value under `key`. */
  ghost predicate Says(v: Json, key: string, value: Json) {
    v.Obj? && Lookup(v.members, key) == Some(value)
  }

  /** What is wrong with the first line. */
  ghost predicate HeaderFails(x: Tools, first: string, e: BackupError) {
    match e
    case LineNotJson(line) => line == 1 && Parse(first) == None
    case NotABackup => Parse(first).Some? && !Says(Parse(first).value, "format", Str("polytician-backup"))
    case NewerVersion(version) =>
      Parse(first).Some? && Says(Parse(first).value, "formatVersion", Num(version)) && version > 1
    case BadHeader => Parse(first).Some? && IsNoHeader(x, Parse(first).value)
    case _ => false
  }

  ghost predicate IsNoHeader(x: Tools, v: Json) {
    WellFormed(v) ==> forall h :: FitsHeader(x.formats, h) ==> MeaningOf(v) != HeaderMeaning(h)
  }

  lemma HeaderEndsRightly(x: Tools, first: string)
    ensures
      match ReadHeader(x, first)
      case Err(e) => HeaderFails(x, first, e)
      case Ok(h) =>
        Parse(first).Some?
        && (WellFormed(Parse(first).value) ==>
              FitsHeader(x.formats, h) && MeaningOf(Parse(first).value) == HeaderMeaning(h))
  {
    if Parse(first).Some? && WellFormed(Parse(first).value) {
      var v := Parse(first).value;
      forall h | ParseHeader(x.formats, v) != Some(h) && FitsHeader(x.formats, h)
        ensures MeaningOf(v) != HeaderMeaning(h)
      {
        HeaderReadsExactly(x.formats, v, h);
      }
      if ParseHeader(x.formats, v).Some? {
        HeaderReadsExactly(x.formats, v, ParseHeader(x.formats, v).value);
      }
    }
  }

  ghost predicate IsPadded(s: string, body: string, padding: string) {
    && s == body + padding && body != "" && (padding == "" || padding == "=" || padding == "==")
    && forall i :: 0 <= i < |body| ==>
         var c := body[i] as int; 48 <= c <= 57 || 65 <= c <= 90 || 97 <= c <= 122 || c == 43 || c == 47
  }

  /** Base64 is letters, digits, plus signs and slashes, at least one, and up to two equals signs behind them. */
  lemma Base64Exactly(s: string)
    ensures IsBase64(s) <==> exists body, padding :: IsPadded(s, body, padding)
  {
    if IsBase64(s) {
      var n :| |s| - 2 <= n <= |s| && 0 < n && IsBase64Upto(s, n);
      assert s == s[..n] + s[n..];
      assert s[n..] == "" || s[n..] == "=" || s[n..] == "==";
      assert IsPadded(s, s[..n], s[n..]);
    }
    if body, padding :| IsPadded(s, body, padding) {
      assert forall i :: |body| <= i < |s| ==> s[i] == padding[i - |body|];
      assert IsBase64Upto(s, |body|);
    }
  }

  /** The body without the newline at its end. */
  ghost predicate IsSealedLine(body: string, line: string) {
    body == line + "\n" || (body == line && (line == "" || line[|line| - 1] != '\n'))
  }

  /** The sealed bytes open under this key to `plain`. */
  ghost predicate Opens(x: Tools, enc: Encryption, key: Bytes, sealed: Bytes, plain: Option<Bytes>) {
    if |sealed| >= 16 && |x.fromBase64(enc.nonce)| == 12 && |key| == 32 then
      plain == x.cipher.decrypt(sealed, key, x.fromBase64(enc.nonce), x.encode(enc.aad))
    else plain == None
  }

  /** The body is sealed with the configured key in a line of base64, which opens to `plain`. */
  ghost predicate Unseals(x: Tools, header: Header, body: string, key: Option<BackupKey>, plain: Option<Bytes>) {
    && header.encryption.Some? && key.Some? && key.value.keyId == header.encryption.value.keyId
    && exists line :: IsSealedLine(body, line) && IsBase64(line)
         && Opens(x, header.encryption.value, key.value.key, x.fromBase64(line), plain)
  }

  /** What is wrong with the body behind this header. */
  ghost predicate BodyFails(x: Tools, header: Header, body: string, key: Option<BackupKey>, e: BackupError) {
    && header.encryption.Some?
    && var enc := header.encryption.value;
       match e
       case AadMismatch => enc.aad != "polytician-backup/1:" + header.backupId
       case NoKey(keyId) => keyId == enc.keyId && key == None
       case WrongKey(needed, configured) =>
         key.Some? && needed == enc.keyId && configured == key.value.keyId && needed != configured
       case NotBase64 => exists line :: IsSealedLine(body, line) && !IsBase64(line)
       case DecryptionFailed => Unseals(x, header, body, key, None)
       case _ => false
  }

  lemma BodyEndsRightly(x: Tools, header: Header, body: string, key: Option<BackupKey>)
    ensures
      match OpenBody(x, header, body, key)
      case Err(e) => BodyFails(x, header, body, key, e)
      case Ok(text) =>
        if header.encryption == None then text == body
        else
          && header.encryption.value.aad == "polytician-backup/1:" + header.backupId
          && exists plain :: Unseals(x, header, body, key, Some(plain)) && text == x.decode(plain)
  {
    AadIsExact(header.backupId);
    if header.encryption.Some? && key.Some? && key.value.keyId == header.encryption.value.keyId {
      var enc := header.encryption.value;
      var line := if |body| > 0 && body[|body| - 1] == '\n' then body[..|body| - 1] else body;
      assert IsSealedLine(body, line) by {
        if |body| > 0 && body[|body| - 1] == '\n' {
          assert body == body[..|body| - 1] + [body[|body| - 1]];
        }
      }
      var plain := OpenBytes(x, x.fromBase64(line), key.value.key, x.fromBase64(enc.nonce), enc.aad);
      assert Opens(x, enc, key.value.key, x.fromBase64(line), plain);
      if IsBase64(line) {
        assert Unseals(x, header, body, key, plain);
      }
    }
  }

  // ---------------------------------------------------- the decoded lines

  /** The first `n` lines hold one record each. */
  ghost predicate RecordsUpTo(x: Tools, lines: seq<string>, n: nat) {
    n <= |lines| && forall i :: 0 <= i < n ==> Parse(lines[i]).Some? && x.formats.isRecord(Parse(lines[i]).value)
  }

  /** The lines are records and a footer, which may not fit them. */
  ghost predicate HoldLines(x: Tools, lines: seq<string>, records: seq<Json>, footer: Footer) {
    && lines != [] && HoldRecords(x, lines[..|lines| - 1], records)
    && HoldsFooter(lines[|lines| - 1], footer) && AreCounts(footer.namespaces)
  }

  /** A line that holds no record, behind lines that do. */
  ghost predicate LineFails(x: Tools, lines: seq<string>, e: BackupError) {
    match e
    case LineNotJson(k) => 2 <= k < |lines| + 2 && RecordsUpTo(x, lines, k - 2) && Parse(lines[k - 2]) == None
    case BadRecord(k) =>
      && 2 <= k < |lines| + 2 && RecordsUpTo(x, lines, k - 2) && Parse(lines[k - 2]).Some?
      && !x.formats.isRecord(Parse(lines[k - 2]).value)
    case _ => false
  }

  /** Records only, or a last line that calls itself a footer and is none. */
  ghost predicate FooterMissing(x: Tools, lines: seq<string>, e: BackupError) {
    match e
    case BadFooter =>
      && lines != [] && RecordsUpTo(x, lines, |lines| - 1) && Parse(lines[|lines| - 1]).Some?
      && Says(Parse(lines[|lines| - 1]).value, "type", Str("footer"))
      && ParseFooter(Parse(lines[|lines| - 1]).value) == None
    case NoFooter =>
      && RecordsUpTo(x, lines, |lines|)
      && (lines != [] ==> !Says(Parse(lines[|lines| - 1]).value, "type", Str("footer")))
    case _ => false
  }

  ghost predicate FooterMisfits(x: Tools, headerLine: string, lines: seq<string>, e: BackupError) {
    exists records, footer ::
      && HoldLines(x, lines, records, footer)
      && FooterFails(x, headerLine + T.Joined(lines[..|lines| - 1]), records, footer, e)
  }

  /** What keeps a footer from fitting the records in front of it. */
  ghost predicate FooterFails(x: Tools, covered: string, records: seq<Json>, footer: Footer, e: BackupError)
    requires AreCounts(footer.namespaces)
  {
    match e
    case ChecksumMismatch => footer.sha256 != x.hash(covered)
    case CountMismatch(counted, held) => counted == footer.conceptCount && held == |records| && counted != held
    case NamespaceMismatch => !CountsHold(footer, records)
    case DuplicateId(k) =>
      2 <= k < |records| + 2 && DistinctIds(records[..k - 2]) && !DistinctIds(records[..k - 1])
    case _ => false
  }

  lemma {:induction false} FirstDuplicateAt(records: seq<Json>, i: nat)
    requires i <= |records| && DistinctIds(records[..i])
    ensures
      match FirstDuplicate(records, i)
      case Some(k) => i <= k < |records| && DistinctIds(records[..k]) && !DistinctIds(records[..k + 1])
      case None => DistinctIds(records)
    decreases |records| - i
  {
    if i == |records| {
      assert records[..i] == records;
    } else if RecordId(records[i]) in IdsBefore(records, i) {
      NextIsRepeated(records, i);
    } else {
      NextIsDistinct(records, i);
      FirstDuplicateAt(records, i + 1);
    }
  }

  lemma NextIsRepeated(records: seq<Json>, i: nat)
    requires i < |records| && RecordId(records[i]) in IdsBefore(records, i)
    ensures !DistinctIds(records[..i + 1])
  {
    var j :| 0 <= j < i && RecordId(records[j]) == RecordId(records[i]);
    assert records[..i + 1][j] == records[j] && records[..i + 1][i] == records[i];
  }

  lemma NextIsDistinct(records: seq<Json>, i: nat)
    requires i < |records| && DistinctIds(records[..i]) && RecordId(records[i]) !in IdsBefore(records, i)
    ensures DistinctIds(records[..i + 1])
  {
    var next := records[..i + 1];
    assert forall j :: 0 <= j < i ==> next[j] == records[..i][j];
    forall j | 0 <= j < i ensures RecordId(next[j]) != RecordId(next[i]) {
      assert RecordId(records[j]) in IdsBefore(records, i);
    }
    LastIsDistinct(records[..i], records[i]);
    assert next == records[..i] + [records[i]];
  }

  lemma LastIsDistinct(init: seq<Json>, last: Json)
    requires DistinctIds(init) && forall j :: 0 <= j < |init| ==> RecordId(init[j]) != RecordId(last)
    ensures DistinctIds(init + [last])
  {
  }

  lemma VerifyEndsRightly(x: Tools, covered: string, records: seq<Json>, footer: Footer)
    requires AreCounts(footer.namespaces)
    ensures
      match Verify(x, covered, records, footer)
      case Some(e) => FooterFails(x, covered, records, footer, e)
      case None => FooterFits(x, covered, records, footer)
  {
    VerifiesExactly(x, covered, records, footer);
    CountsExactly(footer, records);
    assert records[..0] == [];
    FirstDuplicateAt(records, 0);
  }

  lemma FirstLinesFail(x: Tools, lines: seq<string>, n: nat, e: BackupError)
    requires n <= |lines| && LineFails(x, lines[..n], e)
    ensures LineFails(x, lines, e)
  {
    assert forall i :: 0 <= i < n ==> lines[..n][i] == lines[i];
  }

  lemma {:induction false} RecordsEndRightly(x: Tools, lines: seq<string>)
    ensures
      match ReadRecords(x, lines)
      case Err(e) => LineFails(x, lines, e)
      case Ok(records) => HoldRecords(x, lines, records)
  {
    if lines != [] {
      var n := |lines| - 1;
      RecordsEndRightly(x, lines[..n]);
      match ReadRecords(x, lines[..n])
      case Err(e) => FirstLinesFail(x, lines, n, e);
      case Ok(records) => LastRecordEndsRightly(x, lines, records);
    }
  }

  lemma {:induction false} LastRecordEndsRightly(x: Tools, lines: seq<string>, records: seq<Json>)
    requires lines != [] && ReadRecords(x, lines[..|lines| - 1]) == Ok(records)
    requires HoldRecords(x, lines[..|lines| - 1], records)
    ensures
      match ReadRecords(x, lines)
      case Err(e) => LineFails(x, lines, e)
      case Ok(all) => HoldRecords(x, lines, all)
  {
    var n := |lines| - 1;
    HeldUpTo(x, lines, n, records);
    if ReadRecords(x, lines).Ok? {
      RecordsRead(x, lines, ReadRecords(x, lines).value);
    }
  }

  lemma HeldUpTo(x: Tools, lines: seq<string>, n: nat, records: seq<Json>)
    requires n <= |lines| && HoldRecords(x, lines[..n], records)
    ensures RecordsUpTo(x, lines, n)
  {
    forall i | 0 <= i < n ensures Parse(lines[i]).Some? && x.formats.isRecord(Parse(lines[i]).value) {
      assert lines[..n][i] == lines[i];
    }
  }

  lemma FooterEndsRightly(x: Tools, lines: seq<string>)
    requires lines != [] && RecordsUpTo(x, lines, |lines| - 1)
    ensures
      var n := |lines| - 1;
      match ReadFooter(x, lines[n], n)
      case Err(e) => LineFails(x, lines, e) || FooterMissing(x, lines, e)
      case Ok(footer) => HoldsFooter(lines[n], footer)
  {
  }

  /** Decoding the lines of a body ends with what they hold or with an error that is true of them. */
  lemma LinesEndRightly(x: Tools, header: Header, headerLine: string, lines: seq<string>)
    ensures
      match DecodedLines(x, header, headerLine, lines)
      case Err(e) =>
        LineFails(x, lines, e) || FooterMissing(x, lines, e) || FooterMisfits(x, headerLine, lines, e)
      case Ok(d) =>
        && d.header == header && HoldLines(x, lines, d.records, d.footer)
        && FooterFits(x, headerLine + T.Joined(lines[..|lines| - 1]), d.records, d.footer)
  {
    if lines != [] {
      var n := |lines| - 1;
      RecordsEndRightly(x, lines[..n]);
      match ReadRecords(x, lines[..n])
      case Err(e) => FirstLinesFail(x, lines, n, e);
      case Ok(records) =>
        HeldUpTo(x, lines, n, records);
        FooterEndsRightly(x, lines);
        if ReadFooter(x, lines[n], n).Ok? {
          HeldEndsRightly(x, headerLine, lines, records, ReadFooter(x, lines[n], n).value);
        }
    }
  }

  lemma HeldEndsRightly(x: Tools, headerLine: string, lines: seq<string>, records: seq<Json>, footer: Footer)
    requires HoldLines(x, lines, records, footer)
    ensures
      var covered := headerLine + T.Joined(lines[..|lines| - 1]);
      match Verify(x, covered, records, footer)
      case Some(e) => FooterMisfits(x, headerLine, lines, e)
      case None => FooterFits(x, covered, records, footer)
  {
    VerifyEndsRightly(x, headerLine + T.Joined(lines[..|lines| - 1]), records, footer);
  }
}
