/** `migrateElevenLabsLegacyTalkConfig` of `extensions/elevenlabs/config-compat.ts`. */
module TalkMigration {
  import opened Results
  import opened Text
  import opened ConfigRecords

  const LEGACY_TALK_FIELD_KEYS: seq<string> := ["voiceId", "voiceAliases", "modelId", "outputFormat", "apiKey"]
  const ELEVENLABS_PROVIDER_ID := "elevenlabs"

  predicate IsLegacyField(key: string) {
    key in LEGACY_TALK_FIELD_KEYS
  }

  predicate HasLegacyFields(talk: Record) {
    exists k :: k in talk && IsLegacyField(k)
  }

  /** `resolveTalkMigrationTargetProviderId` */
  function TargetProvider(talk: Record): Option<string> {
    var explicit := if At(talk, "provider").Str? then Trim(talk["provider"].s) else "";
    if explicit != "" then (if IsBlockedObjectKey(explicit) then None else Some(explicit))
    else if !At(talk, "providers").Rec? then Some(ELEVENLABS_PROVIDER_ID)
    else
      var ids := ProviderIds(talk["providers"].fields);
      if ids == {} then Some(ELEVENLABS_PROVIDER_ID)
      else if |ids| == 1 then Some(TheOnly(ids))
      else None
  }

  function ProviderIds(providers: Record): set<string> {
    set k | k in providers && !IsBlockedObjectKey(k)
  }

  lemma OnlyOne(ids: set<string>)
    requires |ids| == 1
    ensures exists id :: id in ids && forall k :: k in ids ==> k == id
  {
    var id :| id in ids;
    assert |ids - {id}| == 0;
    assert ids == {id};
  }

  function TheOnly(ids: set<string>): (id: string)
    requires |ids| == 1
    ensures ids == {id}
  {
    OnlyOne(ids);
    var id :| id in ids && forall k :: k in ids ==> k == id;
    id
  }

  /** The legacy fields `talk` carries, and the rest of it. */
  function LegacyFields(talk: Record): Record {
    map k | k in talk && IsLegacyField(k) :: talk[k]
  }

  function WithoutLegacyFields(talk: Record): Record {
    map k | k in talk && !IsLegacyField(k) :: talk[k]
  }

  datatype Change = Skipped | MovedTo(provider: string)

  datatype Migration = Migration(config: Json, changes: seq<Change>)

  function TalkOf(raw: Json): Option<Record> {
    if raw.Rec? && At(raw.fields, "talk").Rec? then Some(raw.fields["talk"].fields) else None
  }

  function MigratedTalk(talk: Record, providerId: string): Record {
    var rest := WithoutLegacyFields(talk);
    var providers := RecordAt(rest, "providers");
    rest["providers" := Rec(providers[providerId := Rec(Merge(RecordAt(providers, providerId), LegacyFields(talk)))])]
  }

  function Migrated(raw: Json): Migration {
    var talk := TalkOf(raw);
    if talk.None? || !HasLegacyFields(talk.value) then Migration(raw, [])
    else
      var providerId := TargetProvider(talk.value);
      if providerId.None? || providerId.value == "" then Migration(raw, [Skipped])
      else Migration(
        Rec(raw.fields["talk" := Rec(MigratedTalk(talk.value, providerId.value))]), [MovedTo(providerId.value)])
  }

  /** What the loop has done after the first i legacy field names. */
  ghost predicate Moved(talk: Record, i: nat, legacyFields: Record, nextTalk: Record)
    requires i <= |LEGACY_TALK_FIELD_KEYS|
  {
    && legacyFields == (map k | k in talk && k in LEGACY_TALK_FIELD_KEYS[..i] :: talk[k])
    && nextTalk == (map k | k in talk && k !in LEGACY_TALK_FIELD_KEYS[..i] :: talk[k])
  }

  lemma MoveStarts(talk: Record)
    ensures Moved(talk, 0, map[], talk)
  {
  }

  lemma MoveNext(talk: Record, i: nat, legacyFields: Record, nextTalk: Record)
    requires i < |LEGACY_TALK_FIELD_KEYS| && Moved(talk, i, legacyFields, nextTalk)
    ensures var key := LEGACY_TALK_FIELD_KEYS[i];
      if key in nextTalk then Moved(talk, i + 1, legacyFields[key := nextTalk[key]], nextTalk - {key})
      else Moved(talk, i + 1, legacyFields, nextTalk)
  {
    NextKey(i);
  }

  lemma MoveEnds(talk: Record, legacyFields: Record, nextTalk: Record)
    requires Moved(talk, |LEGACY_TALK_FIELD_KEYS|, legacyFields, nextTalk)
    ensures legacyFields == LegacyFields(talk) && nextTalk == WithoutLegacyFields(talk)
    ensures RecordAt(nextTalk, "providers") == RecordAt(talk, "providers")
  {
    assert LEGACY_TALK_FIELD_KEYS[..|LEGACY_TALK_FIELD_KEYS|] == LEGACY_TALK_FIELD_KEYS;
    LegacyKeys("providers");
  }

  method MigrateElevenLabsLegacyTalkConfig(raw: Json) returns (m: Migration)
    ensures m == Migrated(raw)
  {
    hide Merge, TargetProvider, Moved, HasLegacyFields, LegacyFields, WithoutLegacyFields, RecordAt;
    var talk := TalkOf(raw);
    if talk.None? || !HasLegacyFields(talk.value) { return Migration(raw, []); }
    var providerId := TargetProvider(talk.value);
    if providerId.None? || providerId.value == "" { return Migration(raw, [Skipped]); }
    var nextTalk := talk.value;
    var providers := RecordAt(nextTalk, "providers");
    var existingProvider := RecordAt(providers, providerId.value);
    var legacyFields: Record := map[];
    MoveStarts(nextTalk);
    for i := 0 to |LEGACY_TALK_FIELD_KEYS|
      invariant Moved(talk.value, i, legacyFields, nextTalk)
    {
      var key := LEGACY_TALK_FIELD_KEYS[i];
      MoveNext(talk.value, i, legacyFields, nextTalk);
      if key in nextTalk {
        legacyFields := legacyFields[key := nextTalk[key]];
        nextTalk := nextTalk - {key};
      }
    }
    MoveEnds(talk.value, legacyFields, nextTalk);
    var migratedProvider := MergeMissing(existingProvider, legacyFields);
    providers := providers[providerId.value := Rec(migratedProvider)];
    nextTalk := nextTalk["providers" := Rec(providers)];
    return Migration(Rec(raw.fields["talk" := Rec(nextTalk)]), [MovedTo(providerId.value)]);
  }

  lemma NextKey(i: nat)
    requires i < |LEGACY_TALK_FIELD_KEYS|
    ensures forall k :: k in LEGACY_TALK_FIELD_KEYS[..i+1] <==> k in LEGACY_TALK_FIELD_KEYS[..i] || k == LEGACY_TALK_FIELD_KEYS[i]
    ensures LEGACY_TALK_FIELD_KEYS[i] !in LEGACY_TALK_FIELD_KEYS[..i]
  {
    assert LEGACY_TALK_FIELD_KEYS[..i+1] == LEGACY_TALK_FIELD_KEYS[..i] + [LEGACY_TALK_FIELD_KEYS[i]];
  }

  // ----- the theorems -----

  lemma LegacyKeys(key: string)
    ensures IsLegacyField(key) ==> key != "provider" && key != "providers" && !IsBlockedObjectKey(key)
  {
  }

  /** After a migration no legacy field is left, and the migrated provider is still the resolved one. */
  lemma MigratedTalkSettled(talk: Record)
    requires TargetProvider(talk).Some?
    ensures var after := MigratedTalk(talk, TargetProvider(talk).value);
      !HasLegacyFields(after) && TargetProvider(after) == TargetProvider(talk)
  {
    hide Merge, Trim, IsLegacyField;
    var id := TargetProvider(talk).value;
    var after := MigratedTalk(talk, id);
    LegacyKeys("provider");
    LegacyKeys("providers");
    assert At(after, "provider") == At(talk, "provider");
    var before := RecordAt(WithoutLegacyFields(talk), "providers");
    assert before == RecordAt(talk, "providers");
    var providers := after["providers"].fields;
    assert providers.Keys == before.Keys + {id};
    SettledProvider(talk, after, before, providers, id);
  }

  lemma SettledProvider(talk: Record, after: Record, before: Record, providers: Record, id: string)
    requires TargetProvider(talk) == Some(id) && before == RecordAt(talk, "providers")
    requires At(after, "provider") == At(talk, "provider")
    requires At(after, "providers") == Rec(providers) && providers.Keys == before.Keys + {id}
    ensures TargetProvider(after) == Some(id)
  {
    hide Trim, ProviderIds;
    if !(At(talk, "provider").Str? && Trim(talk["provider"].s) != "") {
      ResolvedIds(talk, before, id);
      AddedId(before, providers, id);
      assert ProviderIds(providers) == {id};
      assert TheOnly({id}) == id;
    }
  }

  lemma ResolvedIds(talk: Record, before: Record, id: string)
    requires TargetProvider(talk) == Some(id) && before == RecordAt(talk, "providers")
    requires !(At(talk, "provider").Str? && Trim(talk["provider"].s) != "")
    ensures !IsBlockedObjectKey(id) && (ProviderIds(before) == {} || ProviderIds(before) == {id})
  {
    hide Trim;
    if |ProviderIds(before)| == 1 {
      assert ProviderIds(before) == {TheOnly(ProviderIds(before))};
    }
  }

  lemma AddedId(before: Record, providers: Record, id: string)
    requires providers.Keys == before.Keys + {id} && !IsBlockedObjectKey(id)
    ensures ProviderIds(providers) == ProviderIds(before) + {id}
  {
  }

  /** Applying the migration twice equals applying it once. */
  lemma MigrationIdempotent(raw: Json)
    ensures Migrated(Migrated(raw).config).config == Migrated(raw).config
    ensures Migrated(raw).changes != [Skipped] ==> Migrated(Migrated(raw).config).changes == []
  {
    hide Merge, TargetProvider, HasLegacyFields;
    var talk := TalkOf(raw);
    if talk.Some? && HasLegacyFields(talk.value) && TargetProvider(talk.value).Some? {
      MigratedTalkSettled(talk.value);
    }
  }

  /** It skips exactly when legacy fields are present but no single provider can be named. */
  lemma SkipsExactly(raw: Json)
    ensures Migrated(raw).changes == [Skipped] <==>
      TalkOf(raw).Some? && HasLegacyFields(TalkOf(raw).value) && !NamesProvider(TalkOf(raw).value)
  {
    hide HasLegacyFields;
    if TalkOf(raw).Some? {
      NamesProviderResolves(TalkOf(raw).value);
    }
  }

  /** An explicit provider that is usable, or at most one usable entry among the providers. */
  ghost predicate NamesProvider(talk: Record) {
    if At(talk, "provider").Str? && Trim(talk["provider"].s) != ""
    then !IsBlockedObjectKey(Trim(talk["provider"].s))
    else
      var ids := ProviderIds(RecordAt(talk, "providers"));
      "" !in ids && forall a, b :: a in ids && b in ids ==> a == b
  }

  lemma NamesProviderResolves(talk: Record)
    ensures NamesProvider(talk) <==> TargetProvider(talk).Some? && TargetProvider(talk).value != ""
  {
    hide Trim;
    var ids := ProviderIds(RecordAt(talk, "providers"));
    if |ids| > 1 {
      var a :| a in ids;
      assert |ids - {a}| > 0;
      var b :| b in ids - {a};
    }
  }

  function ProviderSettings(raw: Json, providerId: string): Json {
    Lookup(raw, ["talk", "providers", providerId])
  }

  lemma LookupThree(raw: Json, a: string, b: string, c: string)
    ensures Lookup(raw, [a, b, c]) ==
            if raw.Rec? then At(RecordAt(RecordAt(raw.fields, a), b), c) else Undefined
  {
    var p := [a, b, c];
    assert p[1..] == [b, c] && [b, c][1..] == [c] && [c][1..] == [];
    if raw.Rec? {
      LookupStep(raw.fields, p);
      if At(raw.fields, a).Rec? {
        LookupStep(At(raw.fields, a).fields, [b, c]);
        if At(RecordAt(raw.fields, a), b).Rec? {
          LookupStep(At(RecordAt(raw.fields, a), b).fields, [c]);
        } else {
          assert Lookup(At(RecordAt(raw.fields, a), b), [c]) == Undefined;
        }
      } else {
        assert Lookup(At(raw.fields, a), [b, c]) == Undefined;
      }
    }
  }

  /** The target provider's settings after a migration: its own merged with the legacy fields. */
  lemma MigratedSettings(raw: Json, id: string)
    requires Migrated(raw).changes == [MovedTo(id)]
    ensures TalkOf(raw).Some?
    ensures ProviderSettings(Migrated(raw).config, id)
         == Rec(Merge(RecordAt(RecordAt(TalkOf(raw).value, "providers"), id), LegacyFields(TalkOf(raw).value)))
  {
    hide Merge, TargetProvider, HasLegacyFields;
    LookupThree(Migrated(raw).config, "talk", "providers", id);
    LegacyKeys("providers");
  }

  /**
   * Explicit provider values survive at every depth; legacy values arrive wherever the provider had none,
   * a provider without settings, or with something that is no record in their place, included.
   */
  lemma ProviderValuesKept(raw: Json, id: string, path: Path)
    requires Migrated(raw).changes == [MovedTo(id)] && path != []
    ensures var before := ProviderSettings(raw, id);
      var after := ProviderSettings(Migrated(raw).config, id);
      var legacy := Rec(LegacyFields(TalkOf(raw).value));
      && (IsLeaf(Lookup(before, path)) ==> Lookup(after, path) == Lookup(before, path))
      && ((!before.Rec? || Missing(before, path)) && Unblocked(path) && Lookup(legacy, path) != Undefined ==>
            Lookup(after, path) == Lookup(legacy, path))
  {
    MigratedSettings(raw, id);
    var talk := TalkOf(raw).value;
    LookupThree(raw, "talk", "providers", id);
    var before := RecordAt(RecordAt(talk, "providers"), id);
    var legacy := Rec(LegacyFields(talk));
    hide Migrated, Merge, LegacyFields;
    assert Merged(Rec(before), legacy) == Rec(Merge(before, LegacyFields(talk)));
    assert !ProviderSettings(raw, id).Rec? ==> before == map[];
    if Lookup(Rec(before), path) != Undefined {
      MergeKeepsTarget(Rec(before), legacy, path);
    } else if (before == map[] || Missing(Rec(before), path)) && Unblocked(path) && Lookup(legacy, path) != Undefined {
      if before == map[] { EmptyMissing(path); }
      MergeFillsMissing(Rec(before), legacy, path);
    }
  }

  lemma EmptyMissing(path: Path)
    requires path != []
    ensures Missing(Rec(map[]), path)
  {
    forall n | 0 <= n < |path| ensures !IsLeaf(Lookup(Rec(map[]), path[..n])) {
      assert n > 0 ==> path[..n] != [];
    }
  }

  /** Everything outside the legacy fields and the target provider reads the same. */
  lemma OtherConfigUnchanged(raw: Json, id: string, key: string, field: string, other: string)
    requires Migrated(raw).changes == [MovedTo(id)] && raw.Rec?
    ensures var before, after := raw.fields, Migrated(raw).config.fields;
      && (key != "talk" ==> At(after, key) == At(before, key))
      && (!IsLegacyField(field) && field != "providers" ==>
            At(RecordAt(after, "talk"), field) == At(RecordAt(before, "talk"), field))
      && (other != id ==>
            At(RecordAt(RecordAt(after, "talk"), "providers"), other) == At(RecordAt(RecordAt(before, "talk"), "providers"), other))
  {
    hide Merge, TargetProvider, HasLegacyFields, IsLegacyField;
    LegacyKeys("providers");
  }

  // ----- the target provider and the legacy fields by name -----

  /** A provider entry that can be a target. */
  ghost predicate Listed(talk: Record, id: string) {
    At(talk, "providers").Rec? && id in talk["providers"].fields && id !in {"__proto__", "prototype", "constructor"}
  }

  ghost predicate Explicit(talk: Record) {
    At(talk, "provider").Str? && Trim(talk["provider"].s) != ""
  }

  /** The explicit provider, trimmed; else the only listed one; else, with none listed, "elevenlabs". */
  lemma TargetSpelledOut(talk: Record, a: string, b: string)
    ensures Explicit(talk) ==>
      TargetProvider(talk) == if Trim(talk["provider"].s) in {"__proto__", "prototype", "constructor"} then None
                              else Some(Trim(talk["provider"].s))
    ensures !Explicit(talk) && (forall id :: !Listed(talk, id)) ==> TargetProvider(talk) == Some("elevenlabs")
    ensures !Explicit(talk) && Listed(talk, a) && (forall id :: Listed(talk, id) ==> id == a) ==> TargetProvider(talk) == Some(a)
    ensures !Explicit(talk) && Listed(talk, a) && Listed(talk, b) && a != b ==> TargetProvider(talk) == None
  {
    hide Trim;
    if !Explicit(talk) && At(talk, "providers").Rec? {
      var ids := ProviderIds(talk["providers"].fields);
      forall id ensures id in ids <==> Listed(talk, id) { ListedIff(talk, id); }
      OneOrMore(ids, a, b);
      hide Listed, ProviderIds;
    }
  }

  lemma ListedIff(talk: Record, id: string)
    requires At(talk, "providers").Rec?
    ensures id in ProviderIds(talk["providers"].fields) <==> Listed(talk, id)
  {
  }

  lemma OneOrMore(ids: set<string>, a: string, b: string)
    ensures (forall id :: id !in ids) <==> ids == {}
    ensures (a in ids && forall id :: id in ids ==> id == a) ==> ids == {a} && |ids| == 1
    ensures a in ids && b in ids && a != b ==> |ids| > 1
  {
    if a in ids && forall id :: id in ids ==> id == a { assert ids == {a}; }
    if a in ids && b in ids && a != b {
      assert {a, b} <= ids;
      assert ids == {a, b} + (ids - {a, b});
    }
  }

  /** Exactly five fields of `talk` are legacy, and they go with their values. */
  lemma LegacyByName(talk: Record, key: string)
    ensures key in LegacyFields(talk) <==>
      key in talk && key in {"voiceId", "voiceAliases", "modelId", "outputFormat", "apiKey"}
    ensures key in LegacyFields(talk) ==> LegacyFields(talk)[key] == talk[key]
    ensures HasLegacyFields(talk) <==> LegacyFields(talk) != map[]
  {
    assert key in LEGACY_TALK_FIELD_KEYS <==> key in {"voiceId", "voiceAliases", "modelId", "outputFormat", "apiKey"};
    if k :| k in talk && IsLegacyField(k) { assert k in LegacyFields(talk); }
    if LegacyFields(talk) != map[] { var k :| k in LegacyFields(talk); }
  }

  /** Whether anything moves, and where to: what does not move leaves the config as it was. */
  lemma ChangesSpelledOut(raw: Json)
    ensures var talk := if raw.Rec? then At(raw.fields, "talk") else Undefined;
      if !talk.Rec? || LegacyFields(talk.fields) == map[] then Migrated(raw) == Migration(raw, [])
      else if TargetProvider(talk.fields) in {None, Some("")} then Migrated(raw) == Migration(raw, [Skipped])
      else Migrated(raw).changes == [MovedTo(TargetProvider(talk.fields).value)]
  {
    if TalkOf(raw).Some? { LegacyByName(TalkOf(raw).value, "voiceId"); }
    hide TargetProvider, HasLegacyFields, LegacyFields, MigratedTalk;
  }
}
