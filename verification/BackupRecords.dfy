/** Which JSON values the schema of backup records accepts, in terms of what they mean. */
module BackupRecords {
  import opened Wrappers
  import opened JsonText
  import opened Canonical
  import opened BackupSchema
  import opened BackupMeaning

  // ------------------------------------------------------ what is accepted

  ghost predicate IsTextIn(m: Meaning, names: set<string>) {
    m.MStr? && m.s in names
  }

  ghost predicate IsTextList(m: Meaning) {
    m.MArr? && forall x :: x in m.items ==> x.MStr?
  }

  ghost predicate IsNumberList(m: Meaning) {
    m.MArr? && forall x :: x in m.items ==> x.MNum? || x.MDec?
  }

  ghost predicate IsTextOfLength(m: Meaning, longest: nat) {
    m.MStr? && 1 <= |m.s| <= longest
  }

  ghost predicate MeansProvenance(p: Meaning) {
    && p.MObj? && p.members.Keys <= {"origin", "derivedFrom", "model", "createdBy", "sources"}
    && "origin" in p.members && IsTextIn(p.members["origin"], {"user", "derived", "llm", "import"})
    && ("derivedFrom" in p.members ==>
          IsTextIn(p.members["derivedFrom"], {"vector", "markdown", "thoughtform"}))
    && ("model" in p.members ==> IsTextOfLength(p.members["model"], 200))
    && ("createdBy" in p.members ==> IsTextOfLength(p.members["createdBy"], 200))
    && ("sources" in p.members ==> IsTextList(p.members["sources"]))
  }

  ghost predicate MeansProvenances(p: Meaning) {
    && p.MObj? && p.members.Keys <= {"vector", "markdown", "thoughtform"}
    && forall k :: k in p.members ==> MeansProvenance(p.members[k])
  }

  /** A concept with all its columns and no others; the thoughtform may be anything. */
  ghost predicate MeansRecord(v: Meaning) {
    && v.MObj?
    && var m := v.members;
       && m.Keys == {"type", "id", "namespace", "version", "createdAt", "updatedAt", "tags", "markdown",
                     "thoughtform", "embedding", "provenance", "assertionStatus", "ledgerRef"}
       && MeansIdentity(m) && MeansContent(m)
  }

  ghost predicate MeansIdentity(m: map<string, Meaning>)
    requires {"type", "id", "namespace", "version", "createdAt", "updatedAt", "tags"} <= m.Keys
  {
    && m["type"] == MStr("concept") && m["id"].MStr? && m["namespace"].MStr?
    && m["version"].MNum? && m["version"].n > 0
    && m["createdAt"].MNum? && m["createdAt"].n >= 0 && m["updatedAt"].MNum? && m["updatedAt"].n >= 0
    && IsTextList(m["tags"])
  }

  ghost predicate MeansContent(m: map<string, Meaning>)
    requires {"markdown", "embedding", "provenance", "assertionStatus", "ledgerRef"} <= m.Keys
  {
    && (m["markdown"] == MNull || m["markdown"].MStr?)
    && (m["embedding"] == MNull || IsNumberList(m["embedding"]))
    && MeansProvenances(m["provenance"])
    && (m["assertionStatus"] == MNull
        || IsTextIn(m["assertionStatus"], {"asserted", "verified", "contested", "retracted"}))
    && (m["ledgerRef"] == MNull || IsTextOfLength(m["ledgerRef"], 512))
  }

  // -------------------------------------------------------------- the rules

  lemma {:induction false} KindMeans(v: Json)
    ensures MeaningOf(v).MStr? <==> v.Str?
    ensures MeaningOf(v).MNum? || MeaningOf(v).MDec? <==> v.Num? || v.Dec?
  {
  }

  lemma {:induction false} TextsMean(items: seq<Json>)
    ensures IsArrayOf(Arr(items), IsStr) <==> IsTextList(MArr(MeaningOfItems(items)))
  {
    var means := MeaningOfItems(items);
    forall i | 0 <= i < |items| ensures means[i].MStr? <==> IsStr(items[i]) {
      KindMeans(items[i]);
    }
    if IsTextList(MArr(means)) {
      forall i | 0 <= i < |items| ensures IsStr(items[i]) {
        assert means[i] in means;
      }
    }
  }

  lemma {:induction false} NumbersMean(items: seq<Json>)
    ensures IsArrayOf(Arr(items), IsNum) <==> IsNumberList(MArr(MeaningOfItems(items)))
  {
    var means := MeaningOfItems(items);
    forall i | 0 <= i < |items| ensures means[i].MNum? || means[i].MDec? <==> IsNum(items[i]) {
      KindMeans(items[i]);
    }
    if IsNumberList(MArr(means)) {
      forall i | 0 <= i < |items| ensures IsNum(items[i]) {
        assert means[i] in means;
      }
    }
  }

  lemma {:induction false} OriginFits(ms: seq<Member>)
    requires DistinctKeys(ms)
    ensures
      var m := MeaningOfMembers(ms);
      MeetsFlat(Lookup(ms, "origin"), AnOrigin)
      <==> "origin" in m && IsTextIn(m["origin"], {"user", "derived", "llm", "import"})
  {
    LookupMeans(ms, "origin");
  }

  lemma {:induction false} RepresentationFits(ms: seq<Member>, key: string)
    requires DistinctKeys(ms)
    ensures
      var m := MeaningOfMembers(ms);
      MeetsFlat(Lookup(ms, key), OptionalRepresentation)
      <==> (key in m ==> IsTextIn(m[key], {"vector", "markdown", "thoughtform"}))
  {
    LookupMeans(ms, key);
  }

  lemma {:induction false} NameFits(ms: seq<Member>, key: string)
    requires DistinctKeys(ms)
    ensures
      var m := MeaningOfMembers(ms);
      MeetsFlat(Lookup(ms, key), OptionalName) <==> (key in m ==> IsTextOfLength(m[key], 200))
  {
    LookupMeans(ms, key);
  }

  lemma {:induction false} SourcesFit(ms: seq<Member>, key: string)
    requires DistinctKeys(ms)
    ensures
      var m := MeaningOfMembers(ms);
      MeetsFlat(Lookup(ms, key), OptionalStrings) <==> (key in m ==> IsTextList(m[key]))
  {
    LookupMeans(ms, key);
    SourcesMean(Lookup(ms, key));
  }

  lemma {:induction false} ProvenanceReadsExactly(v: Json)
    requires WellFormed(v)
    ensures IsProvenance(v) <==> MeansProvenance(MeaningOf(v))
  {
    if v.Obj? {
      var ms := v.members;
      ProvenanceNames();
      OnlySchemaKeys(ms, PROVENANCE_SCHEMA, MeetsFlat, {"origin", "derivedFrom", "model", "createdBy", "sources"});
      ProvenanceRules(ms);
      OriginFits(ms);
      RepresentationFits(ms, "derivedFrom");
      NameFits(ms, "model");
      NameFits(ms, "createdBy");
      SourcesFit(ms, "sources");
    }
  }

  lemma {:induction false} SourcesMean(v: Option<Json>)
    ensures v.Some? ==> (IsArrayOf(v.value, IsStr) <==> IsTextList(MeaningOf(v.value)))
  {
    if v.Some? {
      match v.value
      case Arr(items) => TextsMean(items);
      case _ =>
    }
  }

  lemma {:induction false} ProvenanceNames()
    ensures Names(PROVENANCE_SCHEMA) == {"origin", "derivedFrom", "model", "createdBy", "sources"}
  {
    var names := Names(PROVENANCE_SCHEMA);
    assert PROVENANCE_SCHEMA[0].0 in names && PROVENANCE_SCHEMA[1].0 in names && PROVENANCE_SCHEMA[2].0 in names
      && PROVENANCE_SCHEMA[3].0 in names && PROVENANCE_SCHEMA[4].0 in names;
  }

  ghost predicate EachMeets(ms: seq<Member>, schema: Schema, meets: (Option<Json>, Rule) -> bool) {
    forall i :: 0 <= i < |schema| ==> meets(Lookup(ms, schema[i].0), schema[i].1)
  }

  /** The rules of a provenance, one by one. */
  lemma {:induction false} ProvenanceRules(ms: seq<Member>)
    ensures EachMeets(ms, PROVENANCE_SCHEMA, MeetsFlat)
      <==> && MeetsFlat(Lookup(ms, "origin"), AnOrigin)
           && MeetsFlat(Lookup(ms, "derivedFrom"), OptionalRepresentation)
           && MeetsFlat(Lookup(ms, "model"), OptionalName) && MeetsFlat(Lookup(ms, "createdBy"), OptionalName)
           && MeetsFlat(Lookup(ms, "sources"), OptionalStrings)
  {
    assert PROVENANCE_SCHEMA[0] == ("origin", AnOrigin);
    assert PROVENANCE_SCHEMA[1] == ("derivedFrom", OptionalRepresentation);
    assert PROVENANCE_SCHEMA[2] == ("model", OptionalName);
    assert PROVENANCE_SCHEMA[3] == ("createdBy", OptionalName);
    assert PROVENANCE_SCHEMA[4] == ("sources", OptionalStrings);
  }

  ghost function Names(schema: Schema): set<string> {
    set i | 0 <= i < |schema| :: schema[i].0
  }

  lemma {:induction false} OnlySchemaKeys(ms: seq<Member>, schema: Schema, meets: (Option<Json>, Rule) -> bool,
                                          names: set<string>)
    requires DistinctKeys(ms) && Names(schema) == names
    ensures Conforms(ms, schema, meets) <==> EachMeets(ms, schema, meets) && MeaningOfMembers(ms).Keys <= names
  {
    KeysMean(ms, names);
  }

  // ------------------------------------------------------------- the record

  lemma {:induction false} ProvenancesRead(v: Json)
    requires WellFormed(v)
    ensures IsProvenanceMap(v) <==> MeansProvenances(MeaningOf(v))
  {
    if v.Obj? {
      var ms, means := v.members, MeaningOfMembers(v.members);
      KeysMean(ms, {"vector", "markdown", "thoughtform"});
      forall i | 0 <= i < |ms|
        ensures ms[i].key in means && (IsProvenance(ms[i].value) <==> MeansProvenance(means[ms[i].key]))
      {
        MemberMeaning(ms, i);
        assert ms[i] in ms;
        ProvenanceReadsExactly(ms[i].value);
      }
      if IsProvenanceMap(v) {
        forall k | k in means ensures MeansProvenance(means[k]) {
          var i := MeaningKey(ms, k);
        }
      }
    }
  }

  ghost predicate IdentityMeets(ms: seq<Member>) {
    && MeetsFlat(Lookup(ms, "type"), Literal("concept")) && MeetsFlat(Lookup(ms, "id"), AnyString)
    && MeetsFlat(Lookup(ms, "namespace"), AnyString) && MeetsFlat(Lookup(ms, "version"), PositiveInt)
    && MeetsFlat(Lookup(ms, "createdAt"), NonNegativeInt) && MeetsFlat(Lookup(ms, "updatedAt"), NonNegativeInt)
    && MeetsFlat(Lookup(ms, "tags"), Strings)
  }

  lemma {:induction false} IdentityRules(ms: seq<Member>)
    ensures EachMeets(ms, IDENTITY_SCHEMA, Meets) <==> IdentityMeets(ms)
  {
    assert IDENTITY_SCHEMA[0] == ("type", Literal("concept")) && IDENTITY_SCHEMA[1] == ("id", AnyString);
    assert IDENTITY_SCHEMA[2] == ("namespace", AnyString) && IDENTITY_SCHEMA[3] == ("version", PositiveInt);
    assert IDENTITY_SCHEMA[4] == ("createdAt", NonNegativeInt) && IDENTITY_SCHEMA[5] == ("updatedAt", NonNegativeInt);
    assert IDENTITY_SCHEMA[6] == ("tags", Strings);
  }

  lemma {:induction false} IdentityFits(ms: seq<Member>)
    requires DistinctKeys(ms)
    requires {"type", "id", "namespace", "version", "createdAt", "updatedAt", "tags"} <= MeaningOfMembers(ms).Keys
    ensures IdentityMeets(ms) <==> MeansIdentity(MeaningOfMembers(ms))
  {
    LookupMeans(ms, "type");
    LookupMeans(ms, "id");
    LookupMeans(ms, "namespace");
    LookupMeans(ms, "version");
    LookupMeans(ms, "createdAt");
    LookupMeans(ms, "updatedAt");
    LookupMeans(ms, "tags");
    SourcesMean(Lookup(ms, "tags"));
  }

  lemma {:induction false} VectorMeans(v: Option<Json>)
    ensures v.Some? ==> (IsArrayOf(v.value, IsNum) <==> IsNumberList(MeaningOf(v.value)))
  {
    if v.Some? {
      match v.value
      case Arr(items) => NumbersMean(items);
      case _ =>
    }
  }

  lemma {:induction false} VectorFits(ms: seq<Member>, key: string)
    requires DistinctKeys(ms) && key in MeaningOfMembers(ms)
    ensures
      var m := MeaningOfMembers(ms);
      MeetsFlat(Lookup(ms, key), NullOrNumbers) <==> m[key] == MNull || IsNumberList(m[key])
  {
    LookupMeans(ms, key);
    VectorMeans(Lookup(ms, key));
  }

  lemma {:induction false} TextFits(ms: seq<Member>, key: string)
    requires DistinctKeys(ms) && key in MeaningOfMembers(ms)
    ensures
      var m := MeaningOfMembers(ms);
      MeetsFlat(Lookup(ms, key), NullOrString) <==> m[key] == MNull || m[key].MStr?
  {
    LookupMeans(ms, key);
  }

  lemma {:induction false} StatusFits(ms: seq<Member>, key: string)
    requires DistinctKeys(ms) && key in MeaningOfMembers(ms)
    ensures
      var m := MeaningOfMembers(ms);
      MeetsFlat(Lookup(ms, key), NullOrStatus)
      <==> m[key] == MNull || IsTextIn(m[key], {"asserted", "verified", "contested", "retracted"})
  {
    LookupMeans(ms, key);
  }

  lemma {:induction false} LedgerRefFits(ms: seq<Member>, key: string)
    requires DistinctKeys(ms) && key in MeaningOfMembers(ms)
    ensures
      var m := MeaningOfMembers(ms);
      MeetsFlat(Lookup(ms, key), NullOrLedgerRef) <==> m[key] == MNull || IsTextOfLength(m[key], 512)
  {
    LookupMeans(ms, key);
  }

  lemma {:induction false} ProvenancesFit(ms: seq<Member>, key: string)
    requires WellFormed(Obj(ms)) && key in MeaningOfMembers(ms)
    ensures Meets(Lookup(ms, key), Provenances) <==> MeansProvenances(MeaningOfMembers(ms)[key])
  {
    LookupMeans(ms, key);
    FoundIsWellFormed(ms, key);
    ProvenancesRead(Lookup(ms, key).value);
  }

  ghost predicate ContentMeets(ms: seq<Member>) {
    && MeetsFlat(Lookup(ms, "markdown"), NullOrString) && Lookup(ms, "thoughtform").Some?
    && MeetsFlat(Lookup(ms, "embedding"), NullOrNumbers) && Meets(Lookup(ms, "provenance"), Provenances)
    && MeetsFlat(Lookup(ms, "assertionStatus"), NullOrStatus) && MeetsFlat(Lookup(ms, "ledgerRef"), NullOrLedgerRef)
  }

  lemma {:induction false} ContentRules(ms: seq<Member>)
    ensures EachMeets(ms, CONTENT_SCHEMA, Meets) <==> ContentMeets(ms)
  {
    assert CONTENT_SCHEMA[0] == ("markdown", NullOrString) && CONTENT_SCHEMA[1] == ("thoughtform", Anything);
    assert CONTENT_SCHEMA[2] == ("embedding", NullOrNumbers) && CONTENT_SCHEMA[3] == ("provenance", Provenances);
    assert CONTENT_SCHEMA[4] == ("assertionStatus", NullOrStatus);
    assert CONTENT_SCHEMA[5] == ("ledgerRef", NullOrLedgerRef);
  }

  lemma {:induction false} ContentFits(ms: seq<Member>)
    requires WellFormed(Obj(ms))
    requires {"markdown", "thoughtform", "embedding", "provenance", "assertionStatus", "ledgerRef"}
      <= MeaningOfMembers(ms).Keys
    ensures ContentMeets(ms) <==> MeansContent(MeaningOfMembers(ms))
  {
    TextFits(ms, "markdown");
    LookupMeans(ms, "thoughtform");
    VectorFits(ms, "embedding");
    ProvenancesFit(ms, "provenance");
    StatusFits(ms, "assertionStatus");
    LedgerRefFits(ms, "ledgerRef");
  }

  lemma {:induction false} IdentityNames()
    ensures Names(IDENTITY_SCHEMA) == {"type", "id", "namespace", "version", "createdAt", "updatedAt", "tags"}
  {
    var names := Names(IDENTITY_SCHEMA);
    assert IDENTITY_SCHEMA[0].0 in names && IDENTITY_SCHEMA[1].0 in names && IDENTITY_SCHEMA[2].0 in names
      && IDENTITY_SCHEMA[3].0 in names && IDENTITY_SCHEMA[4].0 in names && IDENTITY_SCHEMA[5].0 in names
      && IDENTITY_SCHEMA[6].0 in names;
  }

  lemma {:induction false} ContentNames()
    ensures Names(CONTENT_SCHEMA)
      == {"markdown", "thoughtform", "embedding", "provenance", "assertionStatus", "ledgerRef"}
  {
    var names := Names(CONTENT_SCHEMA);
    assert CONTENT_SCHEMA[0].0 in names && CONTENT_SCHEMA[1].0 in names && CONTENT_SCHEMA[2].0 in names
      && CONTENT_SCHEMA[3].0 in names && CONTENT_SCHEMA[4].0 in names && CONTENT_SCHEMA[5].0 in names;
  }

  /** Both halves of a schema. */
  lemma {:induction false} SchemaSplits(ms: seq<Member>, a: Schema, b: Schema)
    ensures EachMeets(ms, a + b, Meets) <==> EachMeets(ms, a, Meets) && EachMeets(ms, b, Meets)
    ensures Names(a + b) == Names(a) + Names(b)
  {
    var all := a + b;
    forall i | 0 <= i < |a| ensures all[i] == a[i] {
    }
    forall i | 0 <= i < |b| ensures all[|a| + i] == b[i] {
    }
    if EachMeets(ms, all, Meets) {
      forall i | 0 <= i < |b| ensures Meets(Lookup(ms, b[i].0), b[i].1) {
        assert all[|a| + i] == b[i];
      }
    }
    forall k | k in Names(b) ensures k in Names(all) {
      var i :| 0 <= i < |b| && b[i].0 == k;
      assert all[|a| + i].0 == k;
    }
  }

  /** What a rule accepts under a key is there. */
  lemma {:induction false} KeysAreThere(ms: seq<Member>, schema: Schema)
    requires DistinctKeys(ms) && EachMeets(ms, schema, Meets)
    requires forall i :: 0 <= i < |schema| ==> !Meets(None, schema[i].1)
    ensures Names(schema) <= MeaningOfMembers(ms).Keys
  {
    forall i | 0 <= i < |schema| ensures schema[i].0 in MeaningOfMembers(ms) {
      LookupMeans(ms, schema[i].0);
    }
  }

  lemma {:induction false} RecordConforms(ms: seq<Member>)
    requires DistinctKeys(ms)
    ensures Conforms(ms, RECORD_SCHEMA, Meets)
      <==> && IdentityMeets(ms) && ContentMeets(ms)
           && MeaningOfMembers(ms).Keys <= Names(IDENTITY_SCHEMA) + Names(CONTENT_SCHEMA)
  {
    SchemaSplits(ms, IDENTITY_SCHEMA, CONTENT_SCHEMA);
    OnlySchemaKeys(ms, RECORD_SCHEMA, Meets, Names(RECORD_SCHEMA));
    IdentityRules(ms);
    ContentRules(ms);
  }

  lemma {:induction false} RecordHasKeys(ms: seq<Member>)
    requires DistinctKeys(ms) && IdentityMeets(ms) && ContentMeets(ms)
    ensures Names(IDENTITY_SCHEMA) <= MeaningOfMembers(ms).Keys && Names(CONTENT_SCHEMA) <= MeaningOfMembers(ms).Keys
  {
    IdentityRules(ms);
    ContentRules(ms);
    KeysAreThere(ms, IDENTITY_SCHEMA);
    KeysAreThere(ms, CONTENT_SCHEMA);
  }

  /** A value is accepted as a record exactly if it means a concept with all its columns and no others. */
  lemma {:induction false} RecordReadsExactly(v: Json)
    requires WellFormed(v)
    ensures IsRecord(v) <==> MeansRecord(MeaningOf(v))
  {
    if v.Obj? {
      var ms, keys := v.members, MeaningOfMembers(v.members).Keys;
      IdentityNames();
      ContentNames();
      RecordConforms(ms);
      if IsRecord(v) {
        RecordHasKeys(ms);
      }
      if Names(IDENTITY_SCHEMA) <= keys && Names(CONTENT_SCHEMA) <= keys {
        IdentityFits(ms);
        ContentFits(ms);
      }
      KeySetsMatch(keys);
    }
  }

  lemma KeySetsMatch(keys: set<string>)
    ensures
      var identity := {"type", "id", "namespace", "version", "createdAt", "updatedAt", "tags"};
      var content := {"markdown", "thoughtform", "embedding", "provenance", "assertionStatus", "ledgerRef"};
      keys <= identity + content && identity <= keys && content <= keys
      <==> keys == {"type", "id", "namespace", "version", "createdAt", "updatedAt", "tags", "markdown",
                    "thoughtform", "embedding", "provenance", "assertionStatus", "ledgerRef"}
  {
  }
}
