/**
 The PolyVault pipeline from outside: what an upload holds, record by record, and what each
 outcome of a restore says about the records it was given.
 */
module VaultOutcomes {
  import opened Wrappers
  import opened Ordering
  import opened JsonText
  import opened Canonical
  import opened Chunker
  import opened Envelope
  import opened Pipeline
  import opened VaultReplay

  // -------------------------------------------------- what is uploaded

  /** The `i`-th of `n` records: numbered, hashed, flagged and small enough. */
  ghost predicate IsUploaded(x: Codecs, b: Bundle, o: BackupOptions, r: ChunkRecord, i: int, n: int) {
    && r.bundleId == b.bundleId && r.compressed == (o.compress == Gzip) && r.encrypted == (o.encrypt == VetKeys)
    && r.chunk.chunkIndex == i && r.chunk.chunkCount == n && r.chunk.chunkHash == x.sha256(r.chunk.payload)
    && |r.chunk.payload| <= o.chunkSize && |r.chunk.payload| <= 1_000_000
  }

  /** The records join to the text, compressed if asked for and then sealed if asked for. */
  ghost predicate Carries(x: Codecs, b: Bundle, o: BackupOptions, nonce: Bytes, upload: Upload, text: Bytes)
    requires o.encrypt == VetKeys ==> o.key.Some?
  {
    var packed := if o.compress == Gzip then x.gzip(text) else text;
    && upload.commit.commitId == b.commitId && upload.commit.manifestHash == x.sha256(text)
    && upload.commit.chunkCount == |upload.records|
    && Joined(ChunksIn(upload.records))
       == (if o.encrypt == VetKeys then
             nonce + x.cipher.encrypt(packed, o.key.value, nonce, x.aadOf(b.bundleId, b.commitId))
           else packed)
    && forall i :: 0 <= i < |upload.records| ==> IsUploaded(x, b, o, upload.records[i], i, |upload.records|)
  }

  /** What is uploaded is the canonical JSON of the bundle, with the placeholders of its manifest. */
  lemma UploadIsExact(x: Codecs, b: Bundle, o: BackupOptions, nonce: Bytes, upload: Upload) returns (json: Json)
    requires Usable(o) && IsUpload(x, b, o, Final(x, b, o, nonce), upload)
    ensures MeaningOf(json) == BundleMeaning(b, o.compress, o.encrypt, "", 1)
    ensures Carries(x, b, o, nonce, upload, x.encode(CanonicalJson(json)))
  {
    json := BundleJson(b, o.compress, o.encrypt, "", 1);
    BundleMeans(b, o.compress, o.encrypt, "", 1);
    var final := Final(x, b, o, nonce);
    var chunks :| AreChunks(final, Min(o.chunkSize, MAX_CHUNK_SIZE), x.sha256, chunks)
      && upload == Upload(CommitRecord(b.commitId, x.sha256(Serialized(x, b, o)), |chunks|),
                          Records(b.bundleId, chunks, o));
    RecordsAreExact(x, b, o, final, chunks);
  }

  lemma RecordsAreExact(x: Codecs, b: Bundle, o: BackupOptions, final: Bytes, chunks: seq<Chunk>)
    requires o.chunkSize >= 1 && AreChunks(final, Min(o.chunkSize, MAX_CHUNK_SIZE), x.sha256, chunks)
    ensures Joined(ChunksIn(Records(b.bundleId, chunks, o))) == final
    ensures forall i :: 0 <= i < |chunks| ==>
      IsUploaded(x, b, o, Records(b.bundleId, chunks, o)[i], i, |chunks|)
  {
    assert ChunksIn(Records(b.bundleId, chunks, o)) == chunks;
    ChunksFit(final, Min(o.chunkSize, MAX_CHUNK_SIZE), x.sha256, chunks);
    forall i | 0 <= i < |chunks| ensures IsUploaded(x, b, o, Records(b.bundleId, chunks, o)[i], i, |chunks|) {
      assert Labelled(chunks[i], i, |chunks|, x.sha256);
    }
  }

  // ------------------------------------------------ how a restore ends

  ghost predicate FlagsDiffer(records: seq<ChunkRecord>) {
    exists r, s :: r in records && s in records && (r.encrypted != s.encrypted || r.compressed != s.compressed)
  }

  ghost predicate AllEncrypted(records: seq<ChunkRecord>, encrypted: bool) {
    forall r :: r in records ==> r.encrypted == encrypted
  }

  ghost predicate AllCompressed(records: seq<ChunkRecord>, compressed: bool) {
    forall r :: r in records ==> r.compressed == compressed
  }

  /** Every envelope error has its reason: too short, a key of the wrong length, or refused by the cipher. */
  ghost predicate CannotOpen(x: Codecs, sealed: Bytes, key: Bytes, aad: Bytes, e: CryptoError) {
    match e
    case TooShort => |sealed| < 28
    case InvalidKeyLength => |key| != 32
    case DecryptionFailed => |sealed| >= 28 && x.cipher.decrypt(sealed[12..], key, sealed[..12], aad) == None
  }

  /** `payload` is what the records join to, in the order of their numbers, unsealed where they are encrypted. */
  ghost predicate Yields(x: Codecs, o: RestoreOptions, commit: CommitRecord, records: seq<ChunkRecord>, payload: Bytes)
    requires records != []
  {
    var sent := Joined(Sort(ChunksIn(records), ByIndex));
    && Complete(ChunksIn(records), x.sha256)
    && if o.encryption == NoEncryption then AllEncrypted(records, false) && payload == sent
       else
         && AllEncrypted(records, true) && o.key.Some? && |o.key.value| == 32 && |sent| >= 28
         && x.cipher.decrypt(sent[12..], o.key.value, sent[..12], x.aadOf(records[0].bundleId, commit.commitId))
            == Some(payload)
  }

  /** `text` is the payload, decompressed where the records are compressed and the options say how. */
  ghost predicate Unpacks(x: Codecs, o: RestoreOptions, records: seq<ChunkRecord>, payload: Bytes,
                          text: Option<Bytes>) {
    || (AllCompressed(records, true) && o.compression == Gzip && text == x.gunzip(payload))
    || ((AllCompressed(records, false) || o.compression == NoCompression) && text == Some(payload))
  }

  /** The payload of the records was opened, and unpacking it gave `text`. */
  ghost predicate Reaches(x: Codecs, o: RestoreOptions, commit: CommitRecord, records: seq<ChunkRecord>,
                          text: Option<Bytes>)
    requires records != []
  {
    !FlagsDiffer(records)
    && exists payload :: Yields(x, o, commit, records, payload) && Unpacks(x, o, records, payload, text)
  }

  /** Up to the decryption: what went wrong with the records. */
  ghost predicate NotDecrypted(x: Codecs, o: RestoreOptions, commit: CommitRecord, records: seq<ChunkRecord>,
                               e: RestoreError)
    requires records != []
  {
    var sent := Joined(Sort(ChunksIn(records), ByIndex));
    match e
    case NotReassembled(reason) => IsFault(ChunksIn(records), x.sha256, reason)
    case MixedFlags => Complete(ChunksIn(records), x.sha256) && FlagsDiffer(records)
    case NotEncrypted => AllEncrypted(records, false) && o.encryption == VetKeys
    case IsEncrypted => AllEncrypted(records, true) && o.encryption == NoEncryption
    case KeyRequired => AllEncrypted(records, true) && o.encryption == VetKeys && o.key == None
    case NotOpened(cause) =>
      && AllEncrypted(records, true) && o.encryption == VetKeys && o.key.Some?
      && CannotOpen(x, sent, o.key.value, x.aadOf(records[0].bundleId, commit.commitId), cause)
    case _ => false
  }

  /** What each outcome of a restore says. */
  ghost predicate EndsRightly(x: Codecs, o: RestoreOptions, commit: CommitRecord, records: seq<ChunkRecord>,
                              r: Result<Json, RestoreError>)
    requires records != []
  {
    match r
    case Err(NotDecompressed) => Reaches(x, o, commit, records, None)
    case Err(NotJson) => ReachesJson(x, o, commit, records, None, false)
    case Err(HashMismatch) => exists json :: ReachesJson(x, o, commit, records, Some(json), false)
    case Err(InvalidBundle) => exists bundle :: Holds(x, o, commit, records, bundle) && !x.isBundle(bundle)
    case Err(e) => NotDecrypted(x, o, commit, records, e)
    case Ok(bundle) => Holds(x, o, commit, records, bundle) && x.isBundle(bundle)
  }

  /** The records hold `bundle`, but for the placeholders that the commit fills in. */
  ghost predicate Holds(x: Codecs, o: RestoreOptions, commit: CommitRecord, records: seq<ChunkRecord>, bundle: Json)
    requires records != []
  {
    exists json ::
      && ReachesJson(x, o, commit, records, Some(json), true)
      && bundle == Patched(json, commit.manifestHash, commit.chunkCount)
  }

  /** The text reads as `json`; `intact` says whether it has the hash of the commit. */
  ghost predicate ReachesJson(x: Codecs, o: RestoreOptions, commit: CommitRecord, records: seq<ChunkRecord>,
                              json: Option<Json>, intact: bool)
    requires records != []
  {
    exists text :: Reaches(x, o, commit, records, Some(text)) && Parse(x.decode(text)) == json
      && (json.Some? ==> intact == (x.sha256(text) == commit.manifestHash))
  }

  lemma MixedFlagsDiffer(records: seq<ChunkRecord>)
    requires records != []
    ensures Mixed(records) <==> FlagsDiffer(records)
    ensures !Mixed(records) ==>
      AllEncrypted(records, records[0].encrypted) && AllCompressed(records, records[0].compressed)
  {
    assert records[0] in records;
    if Mixed(records) {
      var i :| 0 <= i < |records|
        && (records[i].encrypted != records[0].encrypted || records[i].compressed != records[0].compressed);
      assert records[i] in records;
    }
  }

  lemma NotOpenedBecause(x: Codecs, sealed: Bytes, key: Bytes, aad: Bytes)
    ensures Opened(x.cipher, sealed, key, aad).Err?
      ==> CannotOpen(x, sealed, key, aad, Opened(x.cipher, sealed, key, aad).error)
    ensures Opened(x.cipher, sealed, key, aad).Ok?
      ==> |sealed| >= 28 && |key| == 32
          && x.cipher.decrypt(sealed[12..], key, sealed[..12], aad) == Some(Opened(x.cipher, sealed, key, aad).value)
  {
  }

  lemma DecryptionEndsRightly(x: Codecs, o: RestoreOptions, commit: CommitRecord, records: seq<ChunkRecord>)
    requires records != []
    ensures
      match Decrypted(x, o, commit, records)
      case Err(e) => NotDecrypted(x, o, commit, records, e)
      case Ok(payload) => Yields(x, o, commit, records, payload) && !FlagsDiffer(records)
  {
    var chunks := ChunksIn(records);
    FaultIsReal(chunks, x.sha256);
    AcceptedExactly(chunks, x.sha256);
    MixedFlagsDiffer(records);
    if Complete(chunks, x.sha256) && o.key.Some? {
      NotOpenedBecause(x, Joined(Sort(chunks, ByIndex)), o.key.value,
                       x.aadOf(records[0].bundleId, commit.commitId));
    }
  }

  /** A restore ends with a bundle that the records hold, or with an error that is true of them. */
  lemma RestoreEndsRightly(x: Codecs, o: RestoreOptions, commit: CommitRecord, records: seq<ChunkRecord>)
    requires records != []
    ensures EndsRightly(x, o, commit, records, RestoredBundle(x, o, commit, records))
  {
    DecryptionEndsRightly(x, o, commit, records);
    MixedFlagsDiffer(records);
    if Decrypted(x, o, commit, records).Ok? {
      var payload := Decrypted(x, o, commit, records).value;
      var text := Decompressed(x, payload, if records[0].compressed then o.compression else NoCompression);
      assert Yields(x, o, commit, records, payload) && Unpacks(x, o, records, payload, text);
      if text.Some? {
        VerifiedRightly(x, o, commit, records, text.value);
      }
    }
  }

  lemma VerifiedRightly(x: Codecs, o: RestoreOptions, commit: CommitRecord, records: seq<ChunkRecord>, text: Bytes)
    requires records != [] && Reaches(x, o, commit, records, Some(text))
    ensures EndsRightly(x, o, commit, records, Verified(x, commit, text))
  {
    assert ReachesJson(x, o, commit, records, Parse(x.decode(text)), x.sha256(text) == commit.manifestHash);
    assert Parse(x.decode(text)) == None ==> ReachesJson(x, o, commit, records, None, false);
  }
}
