/** The schemas of a backup file's header, records and footer, on parsed JSON values. */
module BackupSchema {
  import opened Wrappers
  import opened JsonText

  // --------------------------------------------------------------- objects

  /** The value of a key; of repeated keys the last one counts. */
  function Lookup(ms: seq<Member>, key: string): Option<Json> {
    if ms == [] then None
    else if ms[|ms| - 1].key == key then Some(ms[|ms| - 1].value)
    else Lookup(ms[..|ms| - 1], key)
  }

  /** A strict schema allows no other keys. */
  predicate OnlyKeys(ms: seq<Member>, keys: set<string>) {
    forall i :: 0 <= i < |ms| ==> ms[i].key in keys
  }

  function GetString(ms: seq<Member>, key: string): Option<string> {
    match Lookup(ms, key)
    case Some(Str(s)) => Some(s)
    case _ => None
  }

  function GetInt(ms: seq<Member>, key: string): Option<int> {
    match Lookup(ms, key)
    case Some(Num(n)) => Some(n)
    case _ => None
  }

  predicate IsNullOr(v: Option<Json>, ok: Json -> bool) {
    v.Some? && (v.value.Null? || ok(v.value))
  }

  predicate IsOptional(v: Option<Json>, ok: Json -> bool) {
    v.None? || ok(v.value)
  }

  predicate IsArrayOf(v: Json, ok: Json -> bool) {
    v.Arr? && forall i :: 0 <= i < |v.items| ==> ok(v.items[i])
  }

  // ---------------------------------------------------------------- record

  const PROVENANCE_CHARS: nat := 200
  const LEDGER_REF_CHARS: nat := 512

  predicate IsStr(v: Json) {
    v.Str?
  }

  predicate IsNum(v: Json) {
    v.Num? || v.Dec?
  }

  predicate IsOneOf(v: Json, names: set<string>) {
    v.Str? && v.s in names
  }

  const REPRESENTATIONS: set<string> := {"vector", "markdown", "thoughtform"}
  const ORIGINS: set<string> := {"user", "derived", "llm", "import"}
  const STATUSES: set<string> := {"asserted", "verified", "contested", "retracted"}

  /** What a schema demands of one field. */
  datatype Rule =
    | Literal(text: string)
    | AnyString
    | PositiveInt
    | NonNegativeInt
    | Strings
    | NullOrString
    | NullOrNumbers
    | Anything
    | Provenances
    | NullOrStatus
    | NullOrLedgerRef
    | AnOrigin
    | OptionalRepresentation
    | OptionalName
    | OptionalStrings

  predicate MeetsFlat(v: Option<Json>, rule: Rule) {
    match rule
    case Literal(text) => v == Some(Str(text))
    case AnyString => v.Some? && v.value.Str?
    case PositiveInt => v.Some? && v.value.Num? && v.value.n > 0
    case NonNegativeInt => v.Some? && v.value.Num? && v.value.n >= 0
    case Strings => v.Some? && IsArrayOf(v.value, IsStr)
    case NullOrString => IsNullOr(v, IsStr)
    case NullOrNumbers => IsNullOr(v, x => IsArrayOf(x, IsNum))
    case Anything => v.Some?
    case Provenances => false
    case NullOrStatus => IsNullOr(v, x => IsOneOf(x, STATUSES))
    case NullOrLedgerRef => IsNullOr(v, (x: Json) => x.Str? && 1 <= |x.s| <= LEDGER_REF_CHARS)
    case AnOrigin => v.Some? && IsOneOf(v.value, ORIGINS)
    case OptionalRepresentation => IsOptional(v, x => IsOneOf(x, REPRESENTATIONS))
    case OptionalName => IsOptional(v, (x: Json) => x.Str? && 1 <= |x.s| <= PROVENANCE_CHARS)
    case OptionalStrings => IsOptional(v, x => IsArrayOf(x, IsStr))
  }

  type Schema = seq<(string, Rule)>

  /** A strict object schema: every field meets its rule, and there are no others. */
  predicate Conforms(ms: seq<Member>, schema: Schema, meets: (Option<Json>, Rule) -> bool) {
    && (forall i :: 0 <= i < |schema| ==> meets(Lookup(ms, schema[i].0), schema[i].1))
    && (forall j :: 0 <= j < |ms| ==> exists i :: 0 <= i < |schema| && schema[i].0 == ms[j].key)
  }

  const PROVENANCE_SCHEMA: Schema := [
    ("origin", AnOrigin),
    ("derivedFrom", OptionalRepresentation),
    ("model", OptionalName),
    ("createdBy", OptionalName),
    ("sources", OptionalStrings)]

  predicate IsProvenance(v: Json) {
    v.Obj? && Conforms(v.members, PROVENANCE_SCHEMA, MeetsFlat)
  }

  predicate IsProvenanceMap(v: Json) {
    v.Obj? && OnlyKeys(v.members, REPRESENTATIONS)
    && forall i :: 0 <= i < |v.members| ==> IsProvenance(v.members[i].value)
  }

  predicate Meets(v: Option<Json>, rule: Rule) {
    if rule.Provenances? then v.Some? && IsProvenanceMap(v.value) else MeetsFlat(v, rule)
  }

  /** A concept as a store holds it; the thoughtform may be any value. */
  const RECORD_SCHEMA: Schema := IDENTITY_SCHEMA + CONTENT_SCHEMA

  const IDENTITY_SCHEMA: Schema := [
    ("type", Literal("concept")),
    ("id", AnyString),
    ("namespace", AnyString),
    ("version", PositiveInt),
    ("createdAt", NonNegativeInt),
    ("updatedAt", NonNegativeInt),
    ("tags", Strings)]

  const CONTENT_SCHEMA: Schema := [
    ("markdown", NullOrString),
    ("thoughtform", Anything),
    ("embedding", NullOrNumbers),
    ("provenance", Provenances),
    ("assertionStatus", NullOrStatus),
    ("ledgerRef", NullOrLedgerRef)]

  /** `recordProblem(v) === null` */
  predicate IsRecord(v: Json) {
    v.Obj? && Conforms(v.members, RECORD_SCHEMA, Meets)
  }

  function RecordField(v: Json, key: string): string {
    if v.Obj? then GetString(v.members, key).GetOr("") else ""
  }

  function RecordId(v: Json): string {
    RecordField(v, "id")
  }

  function RecordNamespace(v: Json): string {
    RecordField(v, "namespace")
  }

  function TypeOf(v: Json): Option<string> {
    if v.Obj? then GetString(v.members, "type") else None
  }

  /** A record says so in its type. */
  lemma RecordType(v: Json)
    requires IsRecord(v)
    ensures TypeOf(v) == Some("concept")
  {
    assert RECORD_SCHEMA[0] == IDENTITY_SCHEMA[0] == ("type", Literal("concept"));
  }

  // ---------------------------------------------------------------- footer

  datatype Footer = Footer(conceptCount: nat, namespaces: seq<Member>, sha256: string)

  predicate IsLowerHex(c: char) {
    '0' <= c <= '9' || 'a' <= c <= 'f'
  }

  predicate IsHash(s: string) {
    |s| == 64 && forall i :: 0 <= i < |s| ==> IsLowerHex(s[i])
  }

  predicate AreCounts(ms: seq<Member>) {
    forall i :: 0 <= i < |ms| ==> ms[i].value.Num? && ms[i].value.n >= 0
  }

  function FooterJson(f: Footer): Json {
    Obj([Member("type", Str("footer")),
         Member("conceptCount", Num(f.conceptCount)),
         Member("namespaces", Obj(f.namespaces)),
         Member("sha256", Str(f.sha256))])
  }

  function ParseFooter(v: Json): Option<Footer> {
    if !v.Obj? then None
    else
      var ms := v.members;
      var namespaces := Lookup(ms, "namespaces");
      if && OnlyKeys(ms, {"type", "conceptCount", "namespaces", "sha256"})
         && GetString(ms, "type") == Some("footer")
         && GetInt(ms, "conceptCount").GetOr(-1) >= 0
         && namespaces.Some? && namespaces.value.Obj? && AreCounts(namespaces.value.members)
         && GetString(ms, "sha256").Some? && IsHash(GetString(ms, "sha256").value)
      then Some(Footer(GetInt(ms, "conceptCount").value, namespaces.value.members, GetString(ms, "sha256").value))
      else None
  }

  /** Looking up a key that no later member repeats. */
  lemma {:induction false} LookupAt(ms: seq<Member>, i: nat)
    requires i < |ms| && forall j :: i < j < |ms| ==> ms[j].key != ms[i].key
    ensures Lookup(ms, ms[i].key) == Some(ms[i].value)
  {
    if i < |ms| - 1 {
      LookupAt(ms[..|ms| - 1], i);
    }
  }

  lemma FooterKeys(f: Footer)
    ensures var ms := FooterJson(f).members;
      && Lookup(ms, "type") == Some(Str("footer")) && Lookup(ms, "conceptCount") == Some(Num(f.conceptCount))
      && Lookup(ms, "namespaces") == Some(Obj(f.namespaces)) && Lookup(ms, "sha256") == Some(Str(f.sha256))
  {
    var ms := FooterJson(f).members;
    assert |ms[0].key| == 4 && |ms[1].key| == 12 && |ms[2].key| == 10 && |ms[3].key| == 6;
    LookupAt(ms, 0);
    LookupAt(ms, 1);
    LookupAt(ms, 2);
    LookupAt(ms, 3);
  }

  lemma FooterParses(f: Footer)
    requires AreCounts(f.namespaces) && IsHash(f.sha256)
    ensures ParseFooter(FooterJson(f)) == Some(f) && TypeOf(FooterJson(f)) == Some("footer")
  {
    FooterKeys(f);
  }

  // ---------------------------------------------------------------- header

  const BACKUP_FORMAT: string := "polytician-backup"
  const BACKUP_FORMAT_VERSION: int := 1
  const CIPHER_NAME: string := "AES-256-GCM"

  datatype Encryption = Encryption(keyId: string, nonce: string, aad: string)

  datatype Header = Header(
    backupId: string,
    createdAt: string,
    embeddingModel: string,
    embeddingDimension: int,
    encryption: Option<Encryption>)

  /** The checks of a file's parts: the string formats that zod knows, and the schema of records. */
  datatype Formats = Formats(isUuid: string -> bool, isDateTime: string -> bool, isRecord: Json -> bool)

  function EncryptionJson(e: Encryption): Json {
    Obj([Member("alg", Str(CIPHER_NAME)),
         Member("keyId", Str(e.keyId)),
         Member("nonce", Str(e.nonce)),
         Member("aad", Str(e.aad))])
  }

  function HeaderJson(h: Header): Json {
    Obj([Member("type", Str("header")),
         Member("format", Str(BACKUP_FORMAT)),
         Member("formatVersion", Num(BACKUP_FORMAT_VERSION)),
         Member("backupId", Str(h.backupId)),
         Member("createdAt", Str(h.createdAt)),
         Member("embeddingModel", Str(h.embeddingModel)),
         Member("embeddingDimension", Num(h.embeddingDimension)),
         Member("encryption", if h.encryption.Some? then EncryptionJson(h.encryption.value) else Null)])
  }

  predicate IsBase64Char(c: char) {
    'A' <= c <= 'Z' || 'a' <= c <= 'z' || '0' <= c <= '9' || c == '+' || c == '/'
  }

  predicate ValidEncryption(e: Encryption) {
    && |e.keyId| == 16 && (forall i :: 0 <= i < |e.keyId| ==> IsLowerHex(e.keyId[i]))
    && |e.nonce| == 16 && (forall i :: 0 <= i < |e.nonce| ==> IsBase64Char(e.nonce[i]))
    && |e.aad| <= 200
  }

  predicate ValidHeader(x: Formats, h: Header) {
    && x.isUuid(h.backupId) && x.isDateTime(h.createdAt)
    && 1 <= |h.embeddingModel| <= 200 && h.embeddingDimension > 0
    && (h.encryption.Some? ==> ValidEncryption(h.encryption.value))
  }

  function ParseEncryption(v: Json): Option<Encryption> {
    if !v.Obj? || !OnlyKeys(v.members, {"alg", "keyId", "nonce", "aad"})
      || GetString(v.members, "alg") != Some(CIPHER_NAME) then None
    else
      match (GetString(v.members, "keyId"), GetString(v.members, "nonce"), GetString(v.members, "aad"))
      case (Some(keyId), Some(nonce), Some(aad)) =>
        var e := Encryption(keyId, nonce, aad);
        if ValidEncryption(e) then Some(e) else None
      case _ => None
  }

  /** None unless present; the inner option tells `null` from an encryption. */
  function ParseNullableEncryption(v: Option<Json>): Option<Option<Encryption>> {
    if v.None? then None
    else if v.value.Null? then Some(None)
    else match ParseEncryption(v.value)
      case Some(e) => Some(Some(e))
      case None => None
  }

  const HEADER_KEYS: set<string> := {
    "type", "format", "formatVersion", "backupId", "createdAt", "embeddingModel", "embeddingDimension", "encryption"}

  function ParseHeader(x: Formats, v: Json): Option<Header> {
    if !v.Obj? || !OnlyKeys(v.members, HEADER_KEYS)
      || GetString(v.members, "type") != Some("header") || GetString(v.members, "format") != Some(BACKUP_FORMAT)
      || GetInt(v.members, "formatVersion") != Some(BACKUP_FORMAT_VERSION) then None
    else
      match (GetString(v.members, "backupId"), GetString(v.members, "createdAt"),
             GetString(v.members, "embeddingModel"), GetInt(v.members, "embeddingDimension"),
             ParseNullableEncryption(Lookup(v.members, "encryption")))
      case (Some(backupId), Some(createdAt), Some(model), Some(dimension), Some(encryption)) =>
        var h := Header(backupId, createdAt, model, dimension, encryption);
        if ValidHeader(x, h) then Some(h) else None
      case _ => None
  }

  lemma EncryptionParses(e: Encryption)
    requires ValidEncryption(e)
    ensures ParseEncryption(EncryptionJson(e)) == Some(e)
  {
    var ms := EncryptionJson(e).members;
    assert ms[0].key[1] == 'l' && ms[3].key[1] == 'a';
    assert |ms[0].key| == 3 && |ms[1].key| == 5 && |ms[2].key| == 5 && |ms[3].key| == 3;
    assert ms[1].key[0] == 'k' && ms[2].key[0] == 'n';
    LookupAt(ms, 0);
    LookupAt(ms, 1);
    LookupAt(ms, 2);
    LookupAt(ms, 3);
  }

  lemma HeaderKeysDiffer(h: Header)
    ensures var ms := HeaderJson(h).members; forall i, j :: 0 <= i < j < |ms| ==> ms[i].key != ms[j].key
  {
    var ms := HeaderJson(h).members;
    assert |ms[0].key| == 4 && |ms[1].key| == 6 && |ms[2].key| == 13 && |ms[3].key| == 8 && |ms[4].key| == 9
      && |ms[5].key| == 14 && |ms[6].key| == 18 && |ms[7].key| == 10;
  }

  lemma HeaderLookups(h: Header)
    ensures var ms := HeaderJson(h).members;
      && Lookup(ms, "type") == Some(ms[0].value) && Lookup(ms, "format") == Some(ms[1].value)
      && Lookup(ms, "formatVersion") == Some(ms[2].value) && Lookup(ms, "backupId") == Some(ms[3].value)
      && Lookup(ms, "createdAt") == Some(ms[4].value) && Lookup(ms, "embeddingModel") == Some(ms[5].value)
      && Lookup(ms, "embeddingDimension") == Some(ms[6].value) && Lookup(ms, "encryption") == Some(ms[7].value)
  {
    var ms := HeaderJson(h).members;
    HeaderKeysDiffer(h);
    forall i | 0 <= i < |ms| ensures Lookup(ms, ms[i].key) == Some(ms[i].value) {
      LookupAt(ms, i);
    }
  }

  lemma HeaderParses(x: Formats, h: Header)
    requires ValidHeader(x, h)
    ensures ParseHeader(x, HeaderJson(h)) == Some(h)
  {
    HeaderLookups(h);
    if h.encryption.Some? {
      EncryptionParses(h.encryption.value);
    }
  }
}
