/** What the header and the footer of a backup file mean: which JSON values read as which header or footer. */
module BackupMeaning {
  import opened Wrappers
  import opened JsonText
  import opened Canonical
  import opened Meanings
  import opened BackupSchema

  // --------------------------------------------------------------- lookups

  lemma {:induction false} LookupKey(ms: seq<Member>, key: string) returns (i: nat)
    requires Lookup(ms, key).Some?
    ensures i < |ms| && ms[i].key == key
  {
    var n := |ms| - 1;
    if ms[n].key == key {
      i := n;
    } else {
      i := LookupKey(ms[..n], key);
    }
  }

  /** Looking up a key finds what the object means under it. */
  lemma LookupMeans(ms: seq<Member>, key: string)
    requires DistinctKeys(ms)
    ensures Lookup(ms, key).Some? <==> key in MeaningOfMembers(ms)
    ensures Lookup(ms, key).Some? ==> MeaningOf(Lookup(ms, key).value) == MeaningOfMembers(ms)[key]
  {
    if Lookup(ms, key).Some? {
      var i := LookupKey(ms, key);
      LookupAt(ms, i);
      MemberMeaning(ms, i);
    }
    if key in MeaningOfMembers(ms) {
      var i := MeaningKey(ms, key);
      LookupAt(ms, i);
    }
  }

  lemma KeysMean(ms: seq<Member>, keys: set<string>)
    requires DistinctKeys(ms)
    ensures OnlyKeys(ms, keys) <==> MeaningOfMembers(ms).Keys <= keys
  {
    if OnlyKeys(ms, keys) {
      forall k | k in MeaningOfMembers(ms) ensures k in keys {
        var i := MeaningKey(ms, k);
      }
    }
    if MeaningOfMembers(ms).Keys <= keys {
      forall i | 0 <= i < |ms| ensures ms[i].key in keys {
        MemberMeaning(ms, i);
      }
    }
  }

  lemma StringMeans(ms: seq<Member>, key: string, s: string)
    requires DistinctKeys(ms)
    ensures GetString(ms, key) == Some(s) <==> key in MeaningOfMembers(ms) && MeaningOfMembers(ms)[key] == MStr(s)
  {
    LookupMeans(ms, key);
  }

  lemma IntMeans(ms: seq<Member>, key: string, n: int)
    requires DistinctKeys(ms)
    ensures GetInt(ms, key) == Some(n) <==> key in MeaningOfMembers(ms) && MeaningOfMembers(ms)[key] == MNum(n)
  {
    LookupMeans(ms, key);
  }

  // ------------------------------------------------------------ encryption

  ghost function EncryptionMeaning(e: Encryption): Meaning {
    MObj(map[
      "alg" := MStr("AES-256-GCM"),
      "keyId" := MStr(e.keyId),
      "nonce" := MStr(e.nonce),
      "aad" := MStr(e.aad)])
  }

  /** The entries of an encryption, one by one. */
  ghost predicate SaysEncryption(m: map<string, Meaning>, e: Encryption) {
    && m.Keys == {"alg", "keyId", "nonce", "aad"}
    && m["alg"] == MStr("AES-256-GCM") && m["keyId"] == MStr(e.keyId)
    && m["nonce"] == MStr(e.nonce) && m["aad"] == MStr(e.aad)
  }

  lemma EncryptionEntries(m: map<string, Meaning>, e: Encryption)
    ensures SaysEncryption(m, e) <==> MObj(m) == EncryptionMeaning(e)
  {
    var known := EncryptionMeaning(e).members;
    assert SaysEncryption(known, e);
    if SaysEncryption(m, e) {
      assert m == known;
    }
  }

  lemma EncryptionReadsExactly(v: Json, e: Encryption)
    requires WellFormed(v)
    ensures ParseEncryption(v) == Some(e) <==> ValidEncryption(e) && MeaningOf(v) == EncryptionMeaning(e)
  {
    if v.Obj? {
      var ms := v.members;
      EncryptionEntries(MeaningOfMembers(ms), e);
      KeysMean(ms, {"alg", "keyId", "nonce", "aad"});
      StringMeans(ms, "alg", "AES-256-GCM");
      StringMeans(ms, "keyId", e.keyId);
      StringMeans(ms, "nonce", e.nonce);
      StringMeans(ms, "aad", e.aad);
    }
  }

  // ---------------------------------------------------------------- header

  ghost function NullableMeaning(e: Option<Encryption>): Meaning {
    if e.Some? then EncryptionMeaning(e.value) else MNull
  }

  ghost function HeaderMeaning(h: Header): Meaning {
    MObj(map[
      "type" := MStr("header"),
      "format" := MStr("polytician-backup"),
      "formatVersion" := MNum(1),
      "backupId" := MStr(h.backupId),
      "createdAt" := MStr(h.createdAt),
      "embeddingModel" := MStr(h.embeddingModel),
      "embeddingDimension" := MNum(h.embeddingDimension),
      "encryption" := NullableMeaning(h.encryption)])
  }

  ghost predicate SaysHeader(m: map<string, Meaning>, h: Header) {
    && m.Keys == HEADER_KEYS
    && m["type"] == MStr("header") && m["format"] == MStr("polytician-backup") && m["formatVersion"] == MNum(1)
    && m["backupId"] == MStr(h.backupId) && m["createdAt"] == MStr(h.createdAt)
    && m["embeddingModel"] == MStr(h.embeddingModel) && m["embeddingDimension"] == MNum(h.embeddingDimension)
    && m["encryption"] == NullableMeaning(h.encryption)
  }

  lemma HeaderEntries(m: map<string, Meaning>, h: Header)
    ensures SaysHeader(m, h) <==> MObj(m) == HeaderMeaning(h)
  {
    var known := HeaderMeaning(h).members;
    assert SaysHeader(known, h);
    if SaysHeader(m, h) {
      assert m == known;
    }
  }

  lemma NullableReadsExactly(v: Option<Json>, e: Option<Encryption>)
    requires v.Some? ==> WellFormed(v.value)
    ensures ParseNullableEncryption(v) == Some(e)
      <==> (e.Some? ==> ValidEncryption(e.value)) && v.Some? && MeaningOf(v.value) == NullableMeaning(e)
  {
    if v.Some? && e.Some? {
      EncryptionReadsExactly(v.value, e.value);
    }
  }

  /** What reading a header looks up. */
  ghost predicate HasHeaderFields(ms: seq<Member>, h: Header) {
    && OnlyKeys(ms, HEADER_KEYS)
    && GetString(ms, "type") == Some("header") && GetString(ms, "format") == Some(BACKUP_FORMAT)
    && GetInt(ms, "formatVersion") == Some(BACKUP_FORMAT_VERSION)
    && GetString(ms, "backupId") == Some(h.backupId) && GetString(ms, "createdAt") == Some(h.createdAt)
    && GetString(ms, "embeddingModel") == Some(h.embeddingModel)
    && GetInt(ms, "embeddingDimension") == Some(h.embeddingDimension)
    && ParseNullableEncryption(Lookup(ms, "encryption")) == Some(h.encryption)
  }

  lemma HeaderFieldsRead(x: Formats, ms: seq<Member>, h: Header)
    ensures ParseHeader(x, Obj(ms)) == Some(h) <==> ValidHeader(x, h) && HasHeaderFields(ms, h)
  {
  }

  lemma HeaderFieldsMean(ms: seq<Member>, h: Header)
    requires WellFormed(Obj(ms)) && (h.encryption.Some? ==> ValidEncryption(h.encryption.value))
    ensures HasHeaderFields(ms, h) <==> SaysHeader(MeaningOfMembers(ms), h)
  {
    KeysMean(ms, HEADER_KEYS);
    StringMeans(ms, "type", "header");
    StringMeans(ms, "format", BACKUP_FORMAT);
    IntMeans(ms, "formatVersion", 1);
    StringMeans(ms, "backupId", h.backupId);
    StringMeans(ms, "createdAt", h.createdAt);
    StringMeans(ms, "embeddingModel", h.embeddingModel);
    IntMeans(ms, "embeddingDimension", h.embeddingDimension);
    LookupMeans(ms, "encryption");
    if Lookup(ms, "encryption").Some? {
      FoundIsWellFormed(ms, "encryption");
    }
    NullableReadsExactly(Lookup(ms, "encryption"), h.encryption);
  }

  /** The bounds on what a header says. */
  ghost predicate FitsHeader(x: Formats, h: Header) {
    && x.isUuid(h.backupId) && x.isDateTime(h.createdAt)
    && h.embeddingModel != "" && |h.embeddingModel| <= 200 && h.embeddingDimension >= 1
    && (h.encryption.Some? ==>
          var e := h.encryption.value;
          && |e.keyId| == 16 && (forall i :: 0 <= i < 16 ==> e.keyId[i] in "0123456789abcdef")
          && |e.nonce| == 16 && (forall i :: 0 <= i < 16 ==> IsBase64Char(e.nonce[i])) && |e.aad| <= 200)
  }

  lemma HexCharacters(c: char)
    ensures IsLowerHex(c) <==> c in "0123456789abcdef"
  {
    var digits := "0123456789abcdef";
    if '0' <= c <= '9' {
      assert digits[c as int - '0' as int] == c;
    } else if 'a' <= c <= 'f' {
      assert digits[10 + c as int - 'a' as int] == c;
    }
  }

  lemma ValidExactly(x: Formats, h: Header)
    ensures ValidHeader(x, h) <==> FitsHeader(x, h)
  {
    if h.encryption.Some? && |h.encryption.value.keyId| == 16 {
      var keyId := h.encryption.value.keyId;
      forall i | 0 <= i < 16 ensures IsLowerHex(keyId[i]) <==> keyId[i] in "0123456789abcdef" {
        HexCharacters(keyId[i]);
      }
    }
  }

  /** A value reads as a header exactly if the header keeps the bounds and is what the value means. */
  lemma HeaderReadsExactly(x: Formats, v: Json, h: Header)
    requires WellFormed(v)
    ensures ParseHeader(x, v) == Some(h) <==> FitsHeader(x, h) && MeaningOf(v) == HeaderMeaning(h)
  {
    ValidExactly(x, h);
    if v.Obj? {
      HeaderEntries(MeaningOfMembers(v.members), h);
      HeaderFieldsRead(x, v.members, h);
      if ValidHeader(x, h) {
        HeaderFieldsMean(v.members, h);
      }
    }
  }

  lemma FoundIsWellFormed(ms: seq<Member>, key: string)
    requires WellFormed(Obj(ms)) && Lookup(ms, key).Some?
    ensures WellFormed(Lookup(ms, key).value)
  {
    var i := LookupKey(ms, key);
    LookupAt(ms, i);
    assert ms[i] in ms;
  }

  // ---------------------------------------------------------------- footer

  ghost function FooterMeaning(f: Footer): Meaning {
    MObj(map[
      "type" := MStr("footer"),
      "conceptCount" := MNum(f.conceptCount),
      "namespaces" := MObj(MeaningOfMembers(f.namespaces)),
      "sha256" := MStr(f.sha256)])
  }

  ghost predicate SaysFooter(m: map<string, Meaning>, f: Footer) {
    && m.Keys == {"type", "conceptCount", "namespaces", "sha256"}
    && m["type"] == MStr("footer") && m["conceptCount"] == MNum(f.conceptCount)
    && m["namespaces"] == MObj(MeaningOfMembers(f.namespaces)) && m["sha256"] == MStr(f.sha256)
  }

  lemma FooterEntries(m: map<string, Meaning>, f: Footer)
    ensures SaysFooter(m, f) <==> MObj(m) == FooterMeaning(f)
  {
    var known := FooterMeaning(f).members;
    assert SaysFooter(known, f);
    if SaysFooter(m, f) {
      assert m == known;
    }
  }

  /** Counts that are not negative, and 64 hex digits. */
  ghost predicate FitsFooter(f: Footer) {
    && (forall i :: 0 <= i < |f.namespaces| ==> f.namespaces[i].value.Num? && f.namespaces[i].value.n >= 0)
    && |f.sha256| == 64 && forall i :: 0 <= i < 64 ==> f.sha256[i] in "0123456789abcdef"
  }

  lemma FitsExactly(f: Footer)
    ensures FitsFooter(f) <==> AreCounts(f.namespaces) && IsHash(f.sha256)
  {
    if |f.sha256| == 64 {
      forall i | 0 <= i < 64 ensures IsLowerHex(f.sha256[i]) <==> f.sha256[i] in "0123456789abcdef" {
        HexCharacters(f.sha256[i]);
      }
    }
  }

  /** A value reads as a footer exactly if the footer keeps the bounds and is what the value means. */
  lemma FooterReadsExactly(v: Json, f: Footer)
    requires WellFormed(v) && v.Obj? && Lookup(v.members, "namespaces") == Some(Obj(f.namespaces))
    ensures ParseFooter(v) == Some(f) <==> FitsFooter(f) && MeaningOf(v) == FooterMeaning(f)
  {
    FitsExactly(f);
    var ms := v.members;
    FooterEntries(MeaningOfMembers(ms), f);
    KeysMean(ms, {"type", "conceptCount", "namespaces", "sha256"});
    StringMeans(ms, "type", "footer");
    IntMeans(ms, "conceptCount", f.conceptCount);
    LookupMeans(ms, "namespaces");
    StringMeans(ms, "sha256", f.sha256);
  }

  // ------------------------------------------------------ what is printed

  lemma HeaderMeans(h: Header)
    ensures MeaningOf(HeaderJson(h)) == HeaderMeaning(h)
  {
    var ms := HeaderJson(h).members;
    HeaderKeysDiffer(h);
    EnteredMeans(ms);
    EightEntered(ms);
    if h.encryption.Some? {
      EncryptionMeans(h.encryption.value);
    }
  }

  lemma EncryptionMeans(e: Encryption)
    ensures MeaningOf(EncryptionJson(e)) == EncryptionMeaning(e)
  {
    var ms := EncryptionJson(e).members;
    assert ms[0].key[1] == 'l' && ms[3].key[1] == 'a';
    assert |ms[0].key| == 3 && |ms[1].key| == 5 && |ms[2].key| == 5 && |ms[3].key| == 3;
    assert ms[1].key[0] == 'k' && ms[2].key[0] == 'n';
    EnteredMeans(ms);
    FourEntered(ms[0], ms[1], ms[2], ms[3]);
    assert ms == [ms[0], ms[1], ms[2], ms[3]];
  }

  lemma FooterMeans(f: Footer)
    ensures MeaningOf(FooterJson(f)) == FooterMeaning(f)
  {
    var ms := FooterJson(f).members;
    assert |ms[0].key| == 4 && |ms[1].key| == 12 && |ms[2].key| == 10 && |ms[3].key| == 6;
    EnteredMeans(ms);
    FourEntered(ms[0], ms[1], ms[2], ms[3]);
    assert ms == [ms[0], ms[1], ms[2], ms[3]];
  }
}
