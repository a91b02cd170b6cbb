/**
 A bundle's way into the vault and back: serialize, compress, seal and chunk; reassemble,
 open, decompress, parse and verify.
 */
module Pipeline {
  import opened Wrappers
  import opened JsonText
  import opened Canonical
  import opened Chunker
  import opened Envelope

  datatype Compression = NoCompression | Gzip

  datatype Encryption = NoEncryption | VetKeys

  /** The runtime's codecs. `aadOf` builds the AAD from a bundle id and a commit id. */
  datatype Codecs = Codecs(
    sha256: Bytes -> string,
    gzip: Bytes -> Bytes,
    gunzip: Bytes -> Option<Bytes>,
    encode: string -> Bytes,
    decode: Bytes -> string,
    cipher: Cipher,
    aadOf: (string, string) -> Bytes,
    isBundle: Json -> bool)

  /** `TextDecoder` drops a leading byte order mark. */
  const BYTE_ORDER_MARK: char := '\U{FEFF}'

  ghost predicate LawfulCodecs(x: Codecs) {
    && LawfulCipher(x.cipher)
    && (forall b :: x.gunzip(x.gzip(b)) == Some(b))
    && (forall s :: s == [] || s[0] != BYTE_ORDER_MARK ==> x.decode(x.encode(s)) == s)
  }

  // --------------------------------------------------------------- bundles

  datatype Bundle = Bundle(
    bundleId: string,
    commitId: string,
    parentCommitId: Option<string>,
    createdAtMs: int,
    dedupeKey: string,
    sinceExclusive: int,
    untilInclusive: int,
    chunkSizeMaxBytes: int,
    thoughtforms: seq<Json>)

  function CompressionName(c: Compression): string {
    if c.Gzip? then "gzip" else "none"
  }

  function EncryptionName(e: Encryption): string {
    if e.VetKeys? then "vetkeys-aes-gcm-v1" else "none"
  }

  function CommitJson(b: Bundle): Json {
    Obj([Member("commitId", Str(b.commitId)),
         Member("parentCommitId", if b.parentCommitId.Some? then Str(b.parentCommitId.value) else Null),
         Member("createdAtMs", Num(b.createdAtMs)),
         Member("syncMode", Str("backup")),
         Member("dedupeKey", Str(b.dedupeKey))])
  }

  function ManifestJson(b: Bundle, compress: Compression, encrypt: Encryption, payloadHash: string,
                        chunkCount: int): Json {
    Obj([Member("thoughtformCount", Num(|b.thoughtforms|)),
         Member("payloadHash", Str(payloadHash)),
         Member("compression", Str(CompressionName(compress))),
         Member("encryption", Str(EncryptionName(encrypt))),
         Member("chunkCount", Num(chunkCount)),
         Member("chunkSizeMaxBytes", Num(b.chunkSizeMaxBytes))])
  }

  function DeltaJson(b: Bundle): Json {
    Obj([Member("sinceUpdatedAtMsExclusive", Num(b.sinceExclusive)),
         Member("untilUpdatedAtMsInclusive", Num(b.untilInclusive))])
  }

  function BundleJson(b: Bundle, compress: Compression, encrypt: Encryption, payloadHash: string,
                      chunkCount: int): Json {
    Obj([Member("version", Str("1.0")),
         Member("bundleId", Str(b.bundleId)),
         Member("commit", CommitJson(b)),
         Member("manifest", ManifestJson(b, compress, encrypt, payloadHash, chunkCount)),
         Member("delta", DeltaJson(b)),
         Member("thoughtforms", Arr(b.thoughtforms))])
  }

  // ---------------------------------------------------------------- backup

  datatype BackupOptions = BackupOptions(
    compress: Compression,
    encrypt: Encryption,
    encryptionRequired: bool,
    chunkSize: int,
    key: Option<Bytes>)

  datatype ChunkRecord = ChunkRecord(bundleId: string, chunk: Chunk, compressed: bool, encrypted: bool)

  datatype CommitRecord = CommitRecord(commitId: string, manifestHash: string, chunkCount: int)

  datatype Upload = Upload(commit: CommitRecord, records: seq<ChunkRecord>)

  datatype BackupError = EncryptionRequired | NoKey | SealFailed(reason: CryptoError) | BadChunkSize

  function Serialized(x: Codecs, b: Bundle, o: BackupOptions): Bytes {
    x.encode(CanonicalJson(BundleJson(b, o.compress, o.encrypt, "", 1)))
  }

  function Compressed(x: Codecs, bytes: Bytes, mode: Compression): Bytes {
    if mode.NoCompression? then bytes else x.gzip(bytes)
  }

  /** The chunks as they are uploaded. */
  function Records(bundleId: string, chunks: seq<Chunk>, o: BackupOptions): (r: seq<ChunkRecord>)
    ensures |r| == |chunks|
  {
    seq(|chunks|, i requires 0 <= i < |chunks| =>
      ChunkRecord(bundleId, chunks[i], !o.compress.NoCompression?, !o.encrypt.NoEncryption?))
  }

  /** `upload` holds the bytes `final` of bundle `b` in chunks. */
  ghost predicate IsUpload(x: Codecs, b: Bundle, o: BackupOptions, final: Bytes, upload: Upload) {
    exists chunks :: AreChunks(final, Min(o.chunkSize, MAX_CHUNK_SIZE), x.sha256, chunks)
      && upload == Upload(CommitRecord(b.commitId, x.sha256(Serialized(x, b, o)), |chunks|),
                          Records(b.bundleId, chunks, o))
  }

  /** The bytes that are chunked. */
  function Final(x: Codecs, b: Bundle, o: BackupOptions, nonce: Bytes): Bytes {
    var bytes := Compressed(x, Serialized(x, b, o), o.compress);
    if o.encrypt.NoEncryption? || o.key.None? then bytes
    else nonce + x.cipher.encrypt(bytes, o.key.value, nonce, x.aadOf(b.bundleId, b.commitId))
  }

  /** Options under which a backup goes through. */
  predicate Usable(o: BackupOptions) {
    && o.chunkSize >= 1
    && (if o.encrypt.NoEncryption? then !o.encryptionRequired else o.key.Some? && |o.key.value| == KEY_BYTES)
  }

  /** What each error says about the options. */
  predicate RefusedFor(o: BackupOptions, e: BackupError) {
    match e
    case EncryptionRequired => o.encrypt == NoEncryption && o.encryptionRequired
    case NoKey => o.encrypt == VetKeys && o.key == None
    case SealFailed(reason) =>
      o.encrypt == VetKeys && o.key.Some? && |o.key.value| != 32 && reason == InvalidKeyLength
    case BadChunkSize =>
      && o.chunkSize < 1
      && (if o.encrypt == NoEncryption then !o.encryptionRequired else o.key.Some? && |o.key.value| == 32)
  }

  method Backup(x: Codecs, b: Bundle, o: BackupOptions, nonce: Bytes) returns (r: Result<Upload, BackupError>)
    requires |nonce| == NONCE_BYTES
    ensures r.Ok? <==> Usable(o)
    ensures r.Ok? ==> IsUpload(x, b, o, Final(x, b, o, nonce), r.value)
    ensures r.Err? ==> RefusedFor(o, r.error)
  {
    var bytes := Serialized(x, b, o);
    var payloadHash := x.sha256(bytes);
    var compressed := Compressed(x, bytes, o.compress);
    if o.encryptionRequired && o.encrypt.NoEncryption? {
      return Err(EncryptionRequired);
    }
    var final := compressed;
    if !o.encrypt.NoEncryption? {
      if o.key.None? {
        return Err(NoKey);
      }
      var sealed := SealPayload(x.cipher, compressed, o.key.value, nonce, x.aadOf(b.bundleId, b.commitId));
      if sealed.Err? {
        return Err(SealFailed(sealed.error));
      }
      final := sealed.value;
    }
    var chunks := ChunkPayload(final, Some(Min(o.chunkSize, MAX_CHUNK_SIZE)), x.sha256);
    if chunks.None? {
      return Err(BadChunkSize);
    }
    return Ok(Upload(CommitRecord(b.commitId, payloadHash, |chunks.value|), Records(b.bundleId, chunks.value, o)));
  }

  // --------------------------------------------------------------- restore

  datatype RestoreOptions = RestoreOptions(compression: Compression, encryption: Encryption, key: Option<Bytes>)

  datatype RestoreError =
    | NotReassembled(reason: ChunkError)
    | MixedFlags
    | NotEncrypted
    | IsEncrypted
    | KeyRequired
    | NotOpened(cause: CryptoError)
    | NotDecompressed
    | NotJson
    | HashMismatch
    | InvalidBundle

  /** Assigning an own property of a parsed object. */
  function SetMember(ms: seq<Member>, key: string, value: Json): seq<Member> {
    if ms == [] then [Member(key, value)]
    else if ms[0].key == key then [Member(key, value)] + ms[1..]
    else [ms[0]] + SetMember(ms[1..], key, value)
  }

  /** Fill the manifest's placeholders in a parsed bundle; anything else is left to the validation. */
  function Patched(raw: Json, payloadHash: string, chunkCount: int): Json {
    if !raw.Obj? then raw else Obj(PatchedMembers(raw.members, payloadHash, chunkCount))
  }

  function PatchedMembers(ms: seq<Member>, payloadHash: string, chunkCount: int): seq<Member> {
    if ms == [] then []
    else if ms[0].key == "manifest" && ms[0].value.Obj? then
      [Member("manifest", Obj(Filled(ms[0].value.members, payloadHash, chunkCount)))] + ms[1..]
    else [ms[0]] + PatchedMembers(ms[1..], payloadHash, chunkCount)
  }

  function Filled(manifest: seq<Member>, payloadHash: string, chunkCount: int): seq<Member> {
    SetMember(SetMember(manifest, "payloadHash", Str(payloadHash)), "chunkCount", Num(chunkCount))
  }

  function ChunksIn(records: seq<ChunkRecord>): (r: seq<Chunk>)
    ensures |r| == |records|
  {
    seq(|records|, i requires 0 <= i < |records| => records[i].chunk)
  }

  predicate Mixed(records: seq<ChunkRecord>)
    requires records != []
  {
    exists i :: 0 <= i < |records|
      && (records[i].encrypted != records[0].encrypted || records[i].compressed != records[0].compressed)
  }

  /** Reassemble the chunks and undo the encryption. */
  function Decrypted(x: Codecs, o: RestoreOptions, commit: CommitRecord, records: seq<ChunkRecord>)
    : Result<Bytes, RestoreError>
    requires records != []
  {
    match Reassembled(ChunksIn(records), x.sha256)
    case Err(e) => Err(NotReassembled(e))
    case Ok(bytes) =>
      if Mixed(records) then Err(MixedFlags)
      else if !records[0].encrypted && !o.encryption.NoEncryption? then Err(NotEncrypted)
      else if records[0].encrypted && o.encryption.NoEncryption? then Err(IsEncrypted)
      else if !records[0].encrypted then Ok(bytes)
      else if o.key.None? then Err(KeyRequired)
      else
        match Opened(x.cipher, bytes, o.key.value, x.aadOf(records[0].bundleId, commit.commitId))
        case Err(e) => Err(NotOpened(e))
        case Ok(text) => Ok(text)
  }

  /** Undo the compression. */
  function Decompressed(x: Codecs, bytes: Bytes, mode: Compression): Option<Bytes> {
    if mode.NoCompression? then Some(bytes) else x.gunzip(bytes)
  }

  /** Parse, verify the hash, fill in the placeholders and validate. */
  function Verified(x: Codecs, commit: CommitRecord, bytes: Bytes): Result<Json, RestoreError> {
    match Parse(x.decode(bytes))
    case None => Err(NotJson)
    case Some(raw) =>
      if x.sha256(bytes) != commit.manifestHash then Err(HashMismatch)
      else
        var bundle := Patched(raw, commit.manifestHash, commit.chunkCount);
        if x.isBundle(bundle) then Ok(bundle) else Err(InvalidBundle)
  }

  /** One commit's way back. */
  function RestoredBundle(x: Codecs, o: RestoreOptions, commit: CommitRecord, records: seq<ChunkRecord>)
    : Result<Json, RestoreError>
    requires records != []
  {
    match Decrypted(x, o, commit, records)
    case Err(e) => Err(e)
    case Ok(decrypted) =>
      match Decompressed(x, decrypted, if records[0].compressed then o.compression else NoCompression)
      case None => Err(NotDecompressed)
      case Some(bytes) => Verified(x, commit, bytes)
  }

  // ------------------------------------------------- the chunks come back

  /** All records carry one bundle id and one pair of flags. */
  ghost predicate Uniform(records: seq<ChunkRecord>, bundleId: string, o: BackupOptions) {
    forall r :: r in records ==>
      r == ChunkRecord(bundleId, r.chunk, !o.compress.NoCompression?, !o.encrypt.NoEncryption?)
  }

  lemma {:induction false} ChunkOccurrences(records: seq<ChunkRecord>, bundleId: string, o: BackupOptions, c: Chunk)
    requires Uniform(records, bundleId, o)
    ensures multiset(ChunksIn(records))[c]
      == multiset(records)[ChunkRecord(bundleId, c, !o.compress.NoCompression?, !o.encrypt.NoEncryption?)]
  {
    if records != [] {
      var n := |records| - 1;
      ChunkOccurrences(records[..n], bundleId, o, c);
      assert records == records[..n] + [records[n]];
      assert ChunksIn(records) == ChunksIn(records[..n]) + [records[n].chunk];
      assert records[n] in records;
    }
  }

  lemma RecordsReceived(bundleId: string, chunks: seq<Chunk>, o: BackupOptions, records: seq<ChunkRecord>)
    requires chunks != [] && multiset(records) == multiset(Records(bundleId, chunks, o))
    ensures records != [] && Uniform(records, bundleId, o) && !Mixed(records)
    ensures multiset(ChunksIn(records)) == multiset(chunks)
  {
    var sent := Records(bundleId, chunks, o);
    assert |multiset(records)| == |multiset(sent)|;
    assert Uniform(sent, bundleId, o);
    forall r | r in records ensures r in sent {
      assert r in multiset(records);
    }
    forall i | 0 <= i < |records| ensures records[i] in sent {
      assert records[i] in records;
    }
    assert ChunksIn(sent) == chunks;
    forall c ensures multiset(ChunksIn(records))[c] == multiset(chunks)[c] {
      ChunkOccurrences(records, bundleId, o, c);
      ChunkOccurrences(sent, bundleId, o, c);
    }
  }

  /** Restore options that fit a backup. */
  predicate Matches(o: BackupOptions, ro: RestoreOptions) {
    && ro.encryption == o.encrypt
    && (o.encrypt.VetKeys? ==> ro.key == o.key)
    && (o.compress.Gzip? ==> ro.compression.Gzip?)
  }

  /** The chunks of this upload, in any order. */
  ghost predicate Received(x: Codecs, b: Bundle, o: BackupOptions, nonce: Bytes, upload: Upload,
                           records: seq<ChunkRecord>) {
    && Usable(o) && |nonce| == NONCE_BYTES
    && IsUpload(x, b, o, Final(x, b, o, nonce), upload)
    && multiset(records) == multiset(upload.records)
  }

  lemma ReassembledUpload(x: Codecs, b: Bundle, o: BackupOptions, nonce: Bytes, upload: Upload,
                          records: seq<ChunkRecord>)
    requires Received(x, b, o, nonce, upload, records)
    ensures records != [] && Uniform(records, b.bundleId, o) && !Mixed(records)
    ensures Reassembled(ChunksIn(records), x.sha256) == Ok(Final(x, b, o, nonce))
    ensures upload.commit.commitId == b.commitId && upload.commit.manifestHash == x.sha256(Serialized(x, b, o))
    ensures records[0]
      == ChunkRecord(b.bundleId, records[0].chunk, !o.compress.NoCompression?, !o.encrypt.NoEncryption?)
  {
    var final := Final(x, b, o, nonce);
    var chunks :| AreChunks(final, Min(o.chunkSize, MAX_CHUNK_SIZE), x.sha256, chunks)
      && upload == Upload(CommitRecord(b.commitId, x.sha256(Serialized(x, b, o)), |chunks|),
                          Records(b.bundleId, chunks, o));
    RecordsReceived(b.bundleId, chunks, o, records);
    ReassemblyInvertsChunking(final, Min(o.chunkSize, MAX_CHUNK_SIZE), x.sha256, chunks, ChunksIn(records));
    assert records[0] in records;
  }

  /** Under the right key the payload comes out as it went in. */
  lemma DecryptedUpload(x: Codecs, b: Bundle, o: BackupOptions, nonce: Bytes, upload: Upload,
                        records: seq<ChunkRecord>, ro: RestoreOptions)
    requires LawfulCodecs(x) && Received(x, b, o, nonce, upload, records)
    requires ro.encryption == o.encrypt && (o.encrypt.VetKeys? ==> ro.key == o.key)
    ensures records != []
    ensures Decrypted(x, ro, upload.commit, records) == Ok(Compressed(x, Serialized(x, b, o), o.compress))
  {
    ReassembledUpload(x, b, o, nonce, upload, records);
    if o.encrypt.VetKeys? {
      var text, aad := Compressed(x, Serialized(x, b, o), o.compress), x.aadOf(b.bundleId, b.commitId);
      assert IsSealing(x.cipher, Final(x, b, o, nonce), text, o.key.value, nonce, aad);
      OpensExactlyWhatWasSealed(x.cipher, Final(x, b, o, nonce), text, o.key.value, aad);
    }
  }

  // ------------------------------------------------ the bundle comes back

  /** What a backup is restored to: the canonical bundle with its manifest filled in. */
  function RestoredJson(x: Codecs, b: Bundle, o: BackupOptions, chunkCount: int): Json {
    Patched(Canonicalize(BundleJson(b, o.compress, o.encrypt, "", 1)), x.sha256(Serialized(x, b, o)), chunkCount)
  }

  lemma VerifiedUpload(x: Codecs, b: Bundle, o: BackupOptions, commit: CommitRecord)
    requires LawfulCodecs(x) && commit.manifestHash == x.sha256(Serialized(x, b, o))
    ensures Verified(x, commit, Serialized(x, b, o))
      == if x.isBundle(RestoredJson(x, b, o, commit.chunkCount)) then Ok(RestoredJson(x, b, o, commit.chunkCount))
         else Err(InvalidBundle)
  {
    var json := BundleJson(b, o.compress, o.encrypt, "", 1);
    ParseInvertsPrint(Canonicalize(json));
    assert CanonicalJson(json)[0] == '{';
  }

  /** Restoring with matching options gives back the bundle, whatever order the chunks arrive in. */
  lemma RestoreInvertsBackup(x: Codecs, b: Bundle, o: BackupOptions, nonce: Bytes, upload: Upload,
                             records: seq<ChunkRecord>, ro: RestoreOptions)
    requires LawfulCodecs(x) && Received(x, b, o, nonce, upload, records) && Matches(o, ro)
    requires x.isBundle(RestoredJson(x, b, o, upload.commit.chunkCount))
    ensures records != []
    ensures RestoredBundle(x, ro, upload.commit, records) == Ok(RestoredJson(x, b, o, upload.commit.chunkCount))
  {
    DecryptedUpload(x, b, o, nonce, upload, records, ro);
    ReassembledUpload(x, b, o, nonce, upload, records);
    VerifiedUpload(x, b, o, upload.commit);
  }

  /**
   What keeps mismatched options apart on this payload: compressing changes its hash, and no
   other key opens it.
   */
  ghost predicate Separates(x: Codecs, b: Bundle, o: BackupOptions, nonce: Bytes, ro: RestoreOptions) {
    var bytes := Serialized(x, b, o);
    && x.sha256(x.gzip(bytes)) != x.sha256(bytes)
    && (o.encrypt.VetKeys? && ro.key.Some? && ro.key != o.key ==>
          Opened(x.cipher, Final(x, b, o, nonce), ro.key.value, x.aadOf(b.bundleId, b.commitId)).Err?)
  }

  lemma WrongEncryption(x: Codecs, b: Bundle, o: BackupOptions, nonce: Bytes, upload: Upload,
                        records: seq<ChunkRecord>, ro: RestoreOptions)
    requires LawfulCodecs(x) && Received(x, b, o, nonce, upload, records) && Separates(x, b, o, nonce, ro)
    requires ro.encryption != o.encrypt || (o.encrypt.VetKeys? && ro.key != o.key)
    ensures records != [] && Decrypted(x, ro, upload.commit, records).Err?
  {
    ReassembledUpload(x, b, o, nonce, upload, records);
  }

  lemma WrongCompression(x: Codecs, b: Bundle, o: BackupOptions, nonce: Bytes, upload: Upload,
                         records: seq<ChunkRecord>, ro: RestoreOptions)
    requires LawfulCodecs(x) && Received(x, b, o, nonce, upload, records) && Separates(x, b, o, nonce, ro)
    requires ro.encryption == o.encrypt && (o.encrypt.VetKeys? ==> ro.key == o.key)
    requires o.compress.Gzip? && ro.compression.NoCompression?
    ensures records != [] && RestoredBundle(x, ro, upload.commit, records).Err?
  {
    var packed := x.gzip(Serialized(x, b, o));
    ReassembledUpload(x, b, o, nonce, upload, records);
    DecryptedUpload(x, b, o, nonce, upload, records, ro);
    WrongHash(x, upload.commit, packed);
  }

  lemma WrongHash(x: Codecs, commit: CommitRecord, bytes: Bytes)
    requires x.sha256(bytes) != commit.manifestHash
    ensures Verified(x, commit, bytes).Err?
  {
  }

  /** Restore succeeds exactly with the encryption, the key and, if it was compressed, the compression of the backup. */
  lemma RestoreSucceedsExactly(x: Codecs, b: Bundle, o: BackupOptions, nonce: Bytes, upload: Upload,
                               records: seq<ChunkRecord>, ro: RestoreOptions)
    requires LawfulCodecs(x) && Received(x, b, o, nonce, upload, records) && Separates(x, b, o, nonce, ro)
    requires x.isBundle(RestoredJson(x, b, o, upload.commit.chunkCount))
    ensures records != []
    ensures RestoredBundle(x, ro, upload.commit, records).Ok? <==> Matches(o, ro)
  {
    if Matches(o, ro) {
      RestoreInvertsBackup(x, b, o, nonce, upload, records, ro);
    } else if ro.encryption == o.encrypt && (o.encrypt.VetKeys? ==> ro.key == o.key) {
      WrongCompression(x, b, o, nonce, upload, records, ro);
    } else {
      WrongEncryption(x, b, o, nonce, upload, records, ro);
    }
  }
}
