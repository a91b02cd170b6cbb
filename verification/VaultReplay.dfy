/**
 What a restored bundle means, and the replay of a whole vault.
 */
module VaultReplay {
  import opened Wrappers
  import opened JsonText
  import opened Canonical
  import opened Meanings
  import opened Chunker
  import opened Pipeline

  // ------------------------------------------------ what the bundle means

  lemma {:induction false} SetKeepsKeysDistinct(ms: seq<Member>, key: string, value: Json)
    requires DistinctKeys(ms)
    ensures DistinctKeys(SetMember(ms, key, value))
    ensures forall m :: m in SetMember(ms, key, value) ==> m.key == key || m in ms
  {
    if ms != [] && ms[0].key != key {
      SetKeepsKeysDistinct(ms[1..], key, value);
      var rest := SetMember(ms[1..], key, value);
      forall j | 0 <= j < |rest| ensures rest[j].key != ms[0].key {
        assert rest[j] in rest;
        assert rest[j].key == key || rest[j] in ms[1..];
      }
    }
  }

  lemma {:induction false} SetMeaning(ms: seq<Member>, key: string, value: Json)
    requires DistinctKeys(ms)
    ensures MeaningOfMembers(SetMember(ms, key, value)) == MeaningOfMembers(ms)[key := MeaningOf(value)]
  {
    if ms != [] {
      var m, rest := ms[0], ms[1..];
      var means := MeaningOfMembers(rest);
      HeadMeaning(ms);
      if m.key == key {
        ConsMeaning(Member(key, value), rest);
      } else {
        SetMeaning(rest, key, value);
        ConsMeaning(m, SetMember(rest, key, value));
        SwapUpdates(means, m.key, MeaningOf(m.value), key, MeaningOf(value));
      }
    }
  }

  lemma HeadMeaning(ms: seq<Member>)
    requires ms != []
    ensures MeaningOfMembers(ms) == MeaningOfMembers(ms[1..])[ms[0].key := MeaningOf(ms[0].value)]
  {
  }

  lemma ConsMeaning(m: Member, ms: seq<Member>)
    ensures MeaningOfMembers([m] + ms) == MeaningOfMembers(ms)[m.key := MeaningOf(m.value)]
  {
    assert ([m] + ms)[1..] == ms;
  }

  /** Filling a manifest on the level of meanings. */
  ghost function Stamped(manifest: map<string, Meaning>, payloadHash: string, chunkCount: int): Meaning {
    MObj(manifest["payloadHash" := MStr(payloadHash)]["chunkCount" := MNum(chunkCount)])
  }

  ghost function FilledMeaning(bundle: map<string, Meaning>, payloadHash: string, chunkCount: int)
    : map<string, Meaning>
  {
    if "manifest" in bundle && bundle["manifest"].MObj? then
      bundle["manifest" := Stamped(bundle["manifest"].members, payloadHash, chunkCount)]
    else bundle
  }

  lemma FilledMeansStamped(manifest: seq<Member>, payloadHash: string, chunkCount: int)
    requires DistinctKeys(manifest)
    ensures MeaningOfMembers(Filled(manifest, payloadHash, chunkCount))
      == Stamped(MeaningOfMembers(manifest), payloadHash, chunkCount).members
  {
    SetMeaning(manifest, "payloadHash", Str(payloadHash));
    SetKeepsKeysDistinct(manifest, "payloadHash", Str(payloadHash));
    SetMeaning(SetMember(manifest, "payloadHash", Str(payloadHash)), "chunkCount", Num(chunkCount));
  }

  lemma FilledOther(means: map<string, Meaning>, key: string, x: Meaning, payloadHash: string, chunkCount: int)
    requires key != "manifest"
    ensures FilledMeaning(means[key := x], payloadHash, chunkCount)
      == FilledMeaning(means, payloadHash, chunkCount)[key := x]
  {
  }

  lemma FilledHere(means: map<string, Meaning>, x: Meaning, payloadHash: string, chunkCount: int)
    ensures FilledMeaning(means["manifest" := x], payloadHash, chunkCount)
      == means["manifest" := if x.MObj? then Stamped(x.members, payloadHash, chunkCount) else x]
  {
  }

  lemma {:induction false} PatchMeaning(ms: seq<Member>, payloadHash: string, chunkCount: int)
    requires DistinctKeys(ms) && forall m :: m in ms && m.value.Obj? ==> DistinctKeys(m.value.members)
    ensures MeaningOfMembers(PatchedMembers(ms, payloadHash, chunkCount))
      == FilledMeaning(MeaningOfMembers(ms), payloadHash, chunkCount)
  {
    if ms != [] {
      HeadMeaning(ms);
      if ms[0].key == "manifest" {
        PatchManifest(ms, payloadHash, chunkCount);
      } else {
        PatchMeaning(ms[1..], payloadHash, chunkCount);
        ConsMeaning(ms[0], PatchedMembers(ms[1..], payloadHash, chunkCount));
        FilledOther(MeaningOfMembers(ms[1..]), ms[0].key, MeaningOf(ms[0].value), payloadHash, chunkCount);
      }
    }
  }

  lemma PatchManifest(ms: seq<Member>, payloadHash: string, chunkCount: int)
    requires ms != [] && ms[0].key == "manifest" && DistinctKeys(ms)
    requires ms[0].value.Obj? ==> DistinctKeys(ms[0].value.members)
    ensures MeaningOfMembers(PatchedMembers(ms, payloadHash, chunkCount))
      == FilledMeaning(MeaningOfMembers(ms), payloadHash, chunkCount)
  {
    HeadMeaning(ms);
    FilledHere(MeaningOfMembers(ms[1..]), MeaningOf(ms[0].value), payloadHash, chunkCount);
    if ms[0].value.Obj? {
      FilledMeansStamped(ms[0].value.members, payloadHash, chunkCount);
      ConsMeaning(Member("manifest", Obj(Filled(ms[0].value.members, payloadHash, chunkCount))), ms[1..]);
    } else {
      NothingToPatch(ms[1..], payloadHash, chunkCount);
      assert ms == [ms[0]] + ms[1..];
    }
  }

  lemma {:induction false} NothingToPatch(ms: seq<Member>, payloadHash: string, chunkCount: int)
    requires forall m :: m in ms ==> m.key != "manifest"
    ensures PatchedMembers(ms, payloadHash, chunkCount) == ms
  {
    if ms != [] {
      NothingToPatch(ms[1..], payloadHash, chunkCount);
    }
  }

  ghost predicate WellFormedForms(forms: seq<Json>) {
    forall tf :: tf in forms ==> WellFormed(tf)
  }

  predicate Scalar(v: Json) {
    !v.Arr? && !v.Obj?
  }

  lemma FlatIsWellFormed(ms: seq<Member>)
    requires DistinctKeys(ms) && forall i :: 0 <= i < |ms| ==> Scalar(ms[i].value)
    ensures WellFormed(Obj(ms))
  {
  }

  lemma ManifestKeys(b: Bundle, compress: Compression, encrypt: Encryption, payloadHash: string, chunkCount: int)
    ensures DistinctKeys(ManifestJson(b, compress, encrypt, payloadHash, chunkCount).members)
  {
    var ms := ManifestJson(b, compress, encrypt, payloadHash, chunkCount).members;
    assert |ms[0].key| == 16 && |ms[1].key| == 11 && |ms[2].key| == 11 && |ms[3].key| == 10
      && |ms[4].key| == 10 && |ms[5].key| == 17;
    assert ms[1].key[0] == 'p' && ms[2].key[0] == 'c' && ms[3].key[0] == 'e' && ms[4].key[0] == 'c';
  }

  lemma BundleKeys(b: Bundle, compress: Compression, encrypt: Encryption, payloadHash: string, chunkCount: int)
    ensures DistinctKeys(BundleJson(b, compress, encrypt, payloadHash, chunkCount).members)
  {
    var ms := BundleJson(b, compress, encrypt, payloadHash, chunkCount).members;
    assert |ms[0].key| == 7 && |ms[1].key| == 8 && |ms[2].key| == 6 && |ms[3].key| == 8
      && |ms[4].key| == 5 && |ms[5].key| == 12;
    assert ms[1].key[0] == 'b' && ms[3].key[0] == 'm';
  }

  lemma BundleIsWellFormed(b: Bundle, compress: Compression, encrypt: Encryption, payloadHash: string, chunkCount: int)
    requires WellFormedForms(b.thoughtforms)
    ensures WellFormed(BundleJson(b, compress, encrypt, payloadHash, chunkCount))
  {
    var ms := BundleJson(b, compress, encrypt, payloadHash, chunkCount).members;
    BundleKeys(b, compress, encrypt, payloadHash, chunkCount);
    forall i | 0 <= i < |ms| ensures WellFormed(ms[i].value) {
      PartIsWellFormed(b, compress, encrypt, payloadHash, chunkCount, i);
    }
    MembersWellFormed(ms);
  }

  lemma MembersWellFormed(ms: seq<Member>)
    requires DistinctKeys(ms) && forall i :: 0 <= i < |ms| ==> WellFormed(ms[i].value)
    ensures WellFormed(Obj(ms))
  {
  }

  lemma CommitKeys(b: Bundle)
    ensures WellFormed(CommitJson(b))
  {
    var ms := CommitJson(b).members;
    assert |ms[0].key| == 8 && |ms[1].key| == 14 && |ms[2].key| == 11 && |ms[3].key| == 8 && |ms[4].key| == 9;
    assert ms[0].key[0] == 'c' && ms[3].key[0] == 's';
    FlatIsWellFormed(ms);
  }

  lemma DeltaKeys(b: Bundle)
    ensures WellFormed(DeltaJson(b))
  {
    var ds := DeltaJson(b).members;
    assert ds[0].key[0] == 's' && ds[1].key[0] == 'u';
    FlatIsWellFormed(ds);
  }

  lemma PartIsWellFormed(b: Bundle, compress: Compression, encrypt: Encryption, payloadHash: string, chunkCount: int,
                         i: nat)
    requires WellFormedForms(b.thoughtforms) && i < 6
    ensures WellFormed(BundleJson(b, compress, encrypt, payloadHash, chunkCount).members[i].value)
  {
    if i == 3 {
      ManifestKeys(b, compress, encrypt, payloadHash, chunkCount);
      FlatIsWellFormed(ManifestJson(b, compress, encrypt, payloadHash, chunkCount).members);
    } else if i == 5 {
      assert WellFormed(Arr(b.thoughtforms));
    } else {
      CommitKeys(b);
      DeltaKeys(b);
    }
  }

  /** Filling in the placeholders makes the bundle that has the real values. */
  lemma FilledBundle(b: Bundle, compress: Compression, encrypt: Encryption, payloadHash: string, chunkCount: int)
    ensures Patched(BundleJson(b, compress, encrypt, "", 1), payloadHash, chunkCount)
      == BundleJson(b, compress, encrypt, payloadHash, chunkCount)
  {
    HashSet(b, compress, encrypt, payloadHash);
    CountSet(b, compress, encrypt, payloadHash, chunkCount);
    FilledManifest(b, compress, encrypt, payloadHash, chunkCount);
  }

  lemma HashSet(b: Bundle, compress: Compression, encrypt: Encryption, payloadHash: string)
    ensures SetMember(ManifestJson(b, compress, encrypt, "", 1).members, "payloadHash", Str(payloadHash))
      == ManifestJson(b, compress, encrypt, payloadHash, 1).members
  {
    var ms := ManifestJson(b, compress, encrypt, "", 1).members;
    SetAtIndex(ms, 1, Str(payloadHash));
  }

  lemma CountSet(b: Bundle, compress: Compression, encrypt: Encryption, payloadHash: string, chunkCount: int)
    ensures SetMember(ManifestJson(b, compress, encrypt, payloadHash, 1).members, "chunkCount", Num(chunkCount))
      == ManifestJson(b, compress, encrypt, payloadHash, chunkCount).members
  {
    var ms := ManifestJson(b, compress, encrypt, payloadHash, 1).members;
    SetAtIndex(ms, 4, Num(chunkCount));
  }

  lemma FilledManifest(b: Bundle, compress: Compression, encrypt: Encryption, payloadHash: string, chunkCount: int)
    requires Filled(ManifestJson(b, compress, encrypt, "", 1).members, payloadHash, chunkCount)
      == ManifestJson(b, compress, encrypt, payloadHash, chunkCount).members
    ensures Patched(BundleJson(b, compress, encrypt, "", 1), payloadHash, chunkCount)
      == BundleJson(b, compress, encrypt, payloadHash, chunkCount)
  {
    var ms := BundleJson(b, compress, encrypt, "", 1).members;
    PatchAtIndex(ms, 3, payloadHash, chunkCount);
    assert ms[3 := Member("manifest", ManifestJson(b, compress, encrypt, payloadHash, chunkCount))]
      == BundleJson(b, compress, encrypt, payloadHash, chunkCount).members;
  }

  lemma UpdateBehind(ms: seq<Member>, i: nat, m: Member)
    requires 0 < i < |ms|
    ensures ms[i := m] == [ms[0]] + ms[1..][i - 1 := m]
  {
  }

  lemma {:induction false} SetAtIndex(ms: seq<Member>, i: nat, value: Json)
    requires i < |ms| && forall j :: 0 <= j < i ==> ms[j].key != ms[i].key
    ensures SetMember(ms, ms[i].key, value) == ms[i := Member(ms[i].key, value)]
  {
    if i == 0 {
      assert ms[0 := Member(ms[0].key, value)] == [Member(ms[0].key, value)] + ms[1..];
    } else {
      forall j | 0 <= j < i - 1 ensures ms[1..][j].key != ms[1..][i - 1].key {
        assert ms[1..][j] == ms[j + 1];
      }
      SetAtIndex(ms[1..], i - 1, value);
      UpdateBehind(ms, i, Member(ms[i].key, value));
    }
  }

  lemma {:induction false} PatchAtIndex(ms: seq<Member>, i: nat, payloadHash: string, chunkCount: int)
    requires i < |ms| && ms[i].key == "manifest" && ms[i].value.Obj?
    requires forall j :: 0 <= j < i ==> ms[j].key != "manifest"
    ensures PatchedMembers(ms, payloadHash, chunkCount)
      == ms[i := Member("manifest", Obj(Filled(ms[i].value.members, payloadHash, chunkCount)))]
  {
    if i > 0 {
      PatchAtIndex(ms[1..], i - 1, payloadHash, chunkCount);
    }
  }

  lemma PatchFollowsMeaning(v: Json, payloadHash: string, chunkCount: int)
    requires WellFormed(v) && v.Obj?
    ensures MeaningOf(Patched(v, payloadHash, chunkCount))
      == MObj(FilledMeaning(MeaningOfMembers(v.members), payloadHash, chunkCount))
  {
    forall m | m in v.members && m.value.Obj? ensures DistinctKeys(m.value.members) {
      assert WellFormed(m.value);
    }
    PatchMeaning(v.members, payloadHash, chunkCount);
  }

  /** A bundle, field by field. */
  ghost function BundleMeaning(b: Bundle, compress: Compression, encrypt: Encryption, payloadHash: string,
                               chunkCount: int): Meaning
  {
    MObj(map[
      "version" := MStr("1.0"),
      "bundleId" := MStr(b.bundleId),
      "commit" := CommitMeaning(b),
      "manifest" := ManifestMeaning(b, compress, encrypt, payloadHash, chunkCount),
      "delta" := DeltaMeaning(b),
      "thoughtforms" := MArr(MeaningOfItems(b.thoughtforms))])
  }

  ghost function CommitMeaning(b: Bundle): Meaning {
    MObj(map[
      "commitId" := MStr(b.commitId),
      "parentCommitId" := if b.parentCommitId.Some? then MStr(b.parentCommitId.value) else MNull,
      "createdAtMs" := MNum(b.createdAtMs),
      "syncMode" := MStr("backup"),
      "dedupeKey" := MStr(b.dedupeKey)])
  }

  ghost function DeltaMeaning(b: Bundle): Meaning {
    MObj(map[
      "sinceUpdatedAtMsExclusive" := MNum(b.sinceExclusive),
      "untilUpdatedAtMsInclusive" := MNum(b.untilInclusive)])
  }

  ghost function ManifestMeaning(b: Bundle, compress: Compression, encrypt: Encryption, payloadHash: string,
                                 chunkCount: int): Meaning
  {
    MObj(map[
      "thoughtformCount" := MNum(|b.thoughtforms|),
      "payloadHash" := MStr(payloadHash),
      "compression" := MStr(if compress == Gzip then "gzip" else "none"),
      "encryption" := MStr(if encrypt == VetKeys then "vetkeys-aes-gcm-v1" else "none"),
      "chunkCount" := MNum(chunkCount),
      "chunkSizeMaxBytes" := MNum(b.chunkSizeMaxBytes)])
  }

  lemma CommitMeans(b: Bundle)
    ensures MeaningOf(CommitJson(b)) == CommitMeaning(b)
  {
    var ms := CommitJson(b).members;
    CommitKeys(b);
    EnteredMeans(ms);
    FiveEntered(ms[0], ms[1], ms[2], ms[3], ms[4]);
    assert ms == [ms[0], ms[1], ms[2], ms[3], ms[4]];
  }

  lemma DeltaMeans(b: Bundle)
    ensures MeaningOf(DeltaJson(b)) == DeltaMeaning(b)
  {
    var ms := DeltaJson(b).members;
    DeltaKeys(b);
    EnteredMeans(ms);
    TwoEntered(ms[0], ms[1]);
    assert ms == [ms[0], ms[1]];
  }

  lemma ManifestMeans(b: Bundle, compress: Compression, encrypt: Encryption, payloadHash: string, chunkCount: int)
    ensures MeaningOf(ManifestJson(b, compress, encrypt, payloadHash, chunkCount))
      == ManifestMeaning(b, compress, encrypt, payloadHash, chunkCount)
  {
    var ms := ManifestJson(b, compress, encrypt, payloadHash, chunkCount).members;
    ManifestKeys(b, compress, encrypt, payloadHash, chunkCount);
    EnteredMeans(ms);
    SixEntered(ms[0], ms[1], ms[2], ms[3], ms[4], ms[5]);
    assert ms == [ms[0], ms[1], ms[2], ms[3], ms[4], ms[5]];
  }

  lemma BundleMeans(b: Bundle, compress: Compression, encrypt: Encryption, payloadHash: string, chunkCount: int)
    ensures MeaningOf(BundleJson(b, compress, encrypt, payloadHash, chunkCount))
      == BundleMeaning(b, compress, encrypt, payloadHash, chunkCount)
  {
    var ms := BundleJson(b, compress, encrypt, payloadHash, chunkCount).members;
    CommitMeans(b);
    ManifestMeans(b, compress, encrypt, payloadHash, chunkCount);
    DeltaMeans(b);
    BundleKeys(b, compress, encrypt, payloadHash, chunkCount);
    EnteredMeans(ms);
    SixEntered(ms[0], ms[1], ms[2], ms[3], ms[4], ms[5]);
    assert ms == [ms[0], ms[1], ms[2], ms[3], ms[4], ms[5]];
  }

  /** The restored bundle means the bundle that was backed up, with its real hash and chunk count. */
  lemma RestoredMeansTheBundle(x: Codecs, b: Bundle, o: BackupOptions, chunkCount: int)
    requires WellFormedForms(b.thoughtforms)
    ensures MeaningOf(RestoredJson(x, b, o, chunkCount))
      == BundleMeaning(b, o.compress, o.encrypt, x.sha256(Serialized(x, b, o)), chunkCount)
  {
    BundleMeans(b, o.compress, o.encrypt, x.sha256(Serialized(x, b, o)), chunkCount);
    var json, hash := BundleJson(b, o.compress, o.encrypt, "", 1), x.sha256(Serialized(x, b, o));
    BundleIsWellFormed(b, o.compress, o.encrypt, "", 1);
    CanonicalizeKeepsMeaning(json);
    CanonicalizeKeepsKeysDistinct(json);
    PatchFollowsMeaning(Canonicalize(json), hash, chunkCount);
    PatchFollowsMeaning(json, hash, chunkCount);
    FilledBundle(b, o.compress, o.encrypt, hash, chunkCount);
  }

  // ----------------------------------------------------- replay of commits

  /** `bundle.thoughtforms` */
  function FormsIn(ms: seq<Member>): seq<Json> {
    if ms == [] then []
    else if ms[0].key == "thoughtforms" && ms[0].value.Arr? then ms[0].value.items
    else FormsIn(ms[1..])
  }

  function ThoughtForms(bundle: Json): seq<Json> {
    if bundle.Obj? then FormsIn(bundle.members) else []
  }

  /** What one commit adds to the forms and the chunks counted before it. */
  function AddCommit(x: Codecs, o: RestoreOptions, commit: CommitRecord, records: seq<ChunkRecord>,
                     before: (seq<Json>, nat))
    : Result<(seq<Json>, nat), RestoreError>
  {
    if records == [] then Ok(before)
    else
      match RestoredBundle(x, o, commit, records)
      case Err(e) => Err(e)
      case Ok(bundle) => Ok((before.0 + ThoughtForms(bundle), before.1 + |records|))
  }

  /** The forms of all commits and how many chunks held them, or the first error. */
  function Collected(x: Codecs, o: RestoreOptions, commits: seq<CommitRecord>, recordsOf: string -> seq<ChunkRecord>)
    : Result<(seq<Json>, nat), RestoreError>
  {
    if commits == [] then Ok(([], 0))
    else
      var commit := commits[|commits| - 1];
      match Collected(x, o, commits[..|commits| - 1], recordsOf)
      case Err(e) => Err(e)
      case Ok(before) => AddCommit(x, o, commit, recordsOf(commit.commitId), before)
  }

  lemma CollectedStep(x: Codecs, o: RestoreOptions, commits: seq<CommitRecord>, recordsOf: string -> seq<ChunkRecord>,
                      i: nat,
                      before: (seq<Json>, nat))
    requires i < |commits| && Collected(x, o, commits[..i], recordsOf) == Ok(before)
    ensures Collected(x, o, commits[..i + 1], recordsOf)
      == AddCommit(x, o, commits[i], recordsOf(commits[i].commitId), before)
  {
    assert commits[..i + 1][..i] == commits[..i];
  }

  lemma {:induction false} FirstErrorStays(x: Codecs, o: RestoreOptions, commits: seq<CommitRecord>,
                                           recordsOf: string -> seq<ChunkRecord>, n: nat)
    requires n <= |commits| && Collected(x, o, commits[..n], recordsOf).Err?
    ensures Collected(x, o, commits, recordsOf) == Collected(x, o, commits[..n], recordsOf)
    decreases |commits|
  {
    if n == |commits| {
      assert commits[..n] == commits;
    } else {
      var init := commits[..|commits| - 1];
      assert init[..n] == commits[..n];
      FirstErrorStays(x, o, init, recordsOf, n);
    }
  }

  /** The loop over the sorted commits. */
  method Collect(x: Codecs, o: RestoreOptions, commits: seq<CommitRecord>, recordsOf: string -> seq<ChunkRecord>)
    returns (r: Result<(seq<Json>, nat), RestoreError>)
    ensures r == Collected(x, o, commits, recordsOf)
  {
    var all: (seq<Json>, nat) := ([], 0);
    for i := 0 to |commits|
      invariant Collected(x, o, commits[..i], recordsOf) == Ok(all)
    {
      CollectedStep(x, o, commits, recordsOf, i, all);
      var added := AddCommit(x, o, commits[i], recordsOf(commits[i].commitId), all);
      if added.Err? {
        FirstErrorStays(x, o, commits, recordsOf, i + 1);
        return Err(added.error);
      }
      all := added.value;
    }
    assert commits[..|commits|] == commits;
    return Ok(all);
  }

  /** A backup that was made: the bundle, its options and what was uploaded. */
  datatype Stored = Stored(bundle: Bundle, options: BackupOptions, nonce: Bytes, upload: Upload)

  /** The vault returns its chunks in some order, and the restore options fit. */
  ghost predicate Restorable(x: Codecs, ro: RestoreOptions, s: Stored, recordsOf: string -> seq<ChunkRecord>) {
    && Received(x, s.bundle, s.options, s.nonce, s.upload, recordsOf(s.bundle.commitId))
    && Matches(s.options, ro) && WellFormedForms(s.bundle.thoughtforms)
    && x.isBundle(RestoredJson(x, s.bundle, s.options, s.upload.commit.chunkCount))
  }

  function CommitsOf(backups: seq<Stored>): (r: seq<CommitRecord>)
    ensures |r| == |backups|
  {
    seq(|backups|, i requires 0 <= i < |backups| => backups[i].upload.commit)
  }

  function AllForms(backups: seq<Stored>): seq<Json> {
    if backups == [] then [] else AllForms(backups[..|backups| - 1]) + backups[|backups| - 1].bundle.thoughtforms
  }

  function AllChunks(backups: seq<Stored>): nat {
    if backups == [] then 0 else AllChunks(backups[..|backups| - 1]) + |backups[|backups| - 1].upload.records|
  }

  lemma AppendMeanings(a: seq<Json>, b: seq<Json>)
    ensures MeaningOfItems(a + b) == MeaningOfItems(a) + MeaningOfItems(b)
  {
    var both, each := MeaningOfItems(a + b), MeaningOfItems(a) + MeaningOfItems(b);
    forall i | 0 <= i < |both| ensures both[i] == each[i] {
      assert both[i] == MeaningOf((a + b)[i]);
    }
  }

  lemma {:induction false} FormsFound(ms: seq<Member>, forms: seq<Meaning>)
    requires "thoughtforms" in MeaningOfMembers(ms) && MeaningOfMembers(ms)["thoughtforms"] == MArr(forms)
    ensures MeaningOfItems(FormsIn(ms)) == forms
  {
    if ms[0].key != "thoughtforms" {
      FormsFound(ms[1..], forms);
    }
  }

  /** A restored bundle's forms mean the forms that were backed up, in the same order. */
  lemma RestoredForms(x: Codecs, b: Bundle, o: BackupOptions, chunkCount: int)
    requires WellFormedForms(b.thoughtforms)
    ensures MeaningOfItems(ThoughtForms(RestoredJson(x, b, o, chunkCount))) == MeaningOfItems(b.thoughtforms)
  {
    var hash := x.sha256(Serialized(x, b, o));
    RestoredMeansTheBundle(x, b, o, chunkCount);
    BundleKeys(b, o.compress, o.encrypt, hash, chunkCount);
    var ms := BundleJson(b, o.compress, o.encrypt, hash, chunkCount).members;
    MemberMeaning(ms, 5);
    assert ms[5] == Member("thoughtforms", Arr(b.thoughtforms));
    FormsFound(RestoredJson(x, b, o, chunkCount).members, MeaningOfItems(b.thoughtforms));
  }

  lemma OneMoreBackup(x: Codecs, ro: RestoreOptions, s: Stored, recordsOf: string -> seq<ChunkRecord>,
                      before: (seq<Json>, nat))
    requires LawfulCodecs(x) && Restorable(x, ro, s, recordsOf)
    ensures var r := AddCommit(x, ro, s.upload.commit, recordsOf(s.upload.commit.commitId), before);
      && r.Ok? && r.value.1 == before.1 + |s.upload.records|
      && MeaningOfItems(r.value.0) == MeaningOfItems(before.0) + MeaningOfItems(s.bundle.thoughtforms)
  {
    var records := recordsOf(s.bundle.commitId);
    ReassembledUpload(x, s.bundle, s.options, s.nonce, s.upload, records);
    RestoreInvertsBackup(x, s.bundle, s.options, s.nonce, s.upload, records, ro);
    RestoredForms(x, s.bundle, s.options, s.upload.commit.chunkCount);
    assert |multiset(records)| == |multiset(s.upload.records)|;
    AppendMeanings(before.0, ThoughtForms(RestoredJson(x, s.bundle, s.options, s.upload.commit.chunkCount)));
  }

  /** The state of a replay after some backups. */
  ghost predicate Replayed(r: Result<(seq<Json>, nat), RestoreError>, backups: seq<Stored>) {
    && r.Ok? && r.value.1 == AllChunks(backups)
    && MeaningOfItems(r.value.0) == MeaningOfItems(AllForms(backups))
  }

  lemma ReplayedStep(before: (seq<Json>, nat), after: (seq<Json>, nat), backups: seq<Stored>, n: nat)
    requires n + 1 == |backups| && Replayed(Ok(before), backups[..n])
    requires after.1 == before.1 + |backups[n].upload.records|
    requires MeaningOfItems(after.0) == MeaningOfItems(before.0) + MeaningOfItems(backups[n].bundle.thoughtforms)
    ensures Replayed(Ok(after), backups)
  {
    AppendMeanings(AllForms(backups[..n]), backups[n].bundle.thoughtforms);
  }

  /** Restoring a vault gives back, in commit order, the forms of all its backups. */
  lemma {:induction false} BackupsComeBack(x: Codecs, ro: RestoreOptions, backups: seq<Stored>,
                                           recordsOf: string -> seq<ChunkRecord>)
    requires LawfulCodecs(x) && forall i :: 0 <= i < |backups| ==> Restorable(x, ro, backups[i], recordsOf)
    ensures Replayed(Collected(x, ro, CommitsOf(backups), recordsOf), backups)
  {
    if backups != [] {
      var n := |backups| - 1;
      BackupsComeBack(x, ro, backups[..n], recordsOf);
      CommitsOfInit(backups, n);
      var before := Collected(x, ro, CommitsOf(backups[..n]), recordsOf).value;
      CollectedStep(x, ro, CommitsOf(backups), recordsOf, n, before);
      OneMoreBackup(x, ro, backups[n], recordsOf, before);
      ReplayedStep(before, Collected(x, ro, CommitsOf(backups), recordsOf).value, backups, n);
    }
  }

  lemma CommitsOfInit(backups: seq<Stored>, n: nat)
    requires n + 1 == |backups|
    ensures CommitsOf(backups)[..n] == CommitsOf(backups[..n]) && CommitsOf(backups)[..n + 1] == CommitsOf(backups)
    ensures CommitsOf(backups)[n] == backups[n].upload.commit
  {
  }
}
