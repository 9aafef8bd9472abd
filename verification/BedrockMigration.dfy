/** `migrateAmazonBedrockLegacyConfig`, against the effective discovery config it must not change. */
module BedrockMigration {
  import opened Results
  import opened ConfigRecords

  const LEGACY_PATH: Path := ["models", "bedrockDiscovery"]
  const TARGET_PATH: Path := ["plugins", "entries", "amazon-bedrock", "config", "discovery"]

  datatype Change = RemovedEmpty | Moved | FilledMissing | AlreadySet

  datatype Migration = Migration(config: Json, changes: seq<Change>)

  /** `resolveLegacyBedrockDiscoveryConfig` */
  function LegacyDiscovery(raw: Json): Option<Record> {
    var legacy := Lookup(raw, LEGACY_PATH);
    if legacy.Rec? then Some(legacy.fields) else None
  }

  function PluginDiscovery(raw: Json): Option<Record> {
    var plugin := Lookup(raw, TARGET_PATH);
    if plugin.Rec? then Some(plugin.fields) else None
  }

  /** `delete models.bedrockDiscovery` and `pruneEmptyModelsRoot`. */
  function WithoutLegacy(root: Record): Record {
    var models := RecordAt(root, "models") - {"bedrockDiscovery"};
    if models == map[] then root - {"models"} else root["models" := Rec(models)]
  }

  /** Some top-level field is taken over. */
  predicate FillsField(existing: Record, legacy: Record) {
    exists k :: k in legacy && Offers(legacy, k) && At(existing, k) == Undefined
  }

  function Migrated(raw: Json): Migration {
    var legacy := LegacyDiscovery(raw);
    if legacy.None? then Migration(raw, [])
    else
      var root := WithoutLegacy(raw.fields);
      if legacy.value == map[] then Migration(Rec(root), [RemovedEmpty])
      else
        var existing := PluginDiscovery(Rec(root));
        match existing
        case None => Migration(Rec(SetAt(root, TARGET_PATH, Rec(legacy.value))), [Moved])
        case Some(plugin) =>
          // The shallow clone shares nested records with the original, so the comparison of the
          // two afterwards only sees the top-level fields.
          Migration(
            Rec(SetAt(root, TARGET_PATH, Rec(Merge(plugin, legacy.value)))),
            [if FillsField(plugin, legacy.value) then FilledMissing else AlreadySet])
  }

  method EnsureRecord(root: Record, key: string) returns (r: Record)
    ensures r == RecordAt(root, key)
  {
    var existing := At(root, key);
    if existing.Rec? { return existing.fields; }
    return map[];
  }

  method MigrateAmazonBedrockLegacyConfig(raw: Json) returns (m: Migration)
    ensures m == Migrated(raw)
  {
    hide Merge, FillsField;
    LookupLegacy(raw);
    if !raw.Rec? { return Migration(raw, []); }
    var oldModels := At(raw.fields, "models");
    if !oldModels.Rec? || !At(oldModels.fields, "bedrockDiscovery").Rec? { return Migration(raw, []); }
    var legacy := At(oldModels.fields, "bedrockDiscovery").fields;
    var nextRoot := raw.fields;
    var models := EnsureRecord(nextRoot, "models");
    models := models - {"bedrockDiscovery"};
    nextRoot := if models == map[] then nextRoot - {"models"} else nextRoot["models" := Rec(models)];
    if legacy == map[] { return Migration(Rec(nextRoot), [RemovedEmpty]); }
    LookupTarget(nextRoot);
    SetTarget(nextRoot);
    var plugins := EnsureRecord(nextRoot, "plugins");
    var entries := EnsureRecord(plugins, "entries");
    var entry := EnsureRecord(entries, "amazon-bedrock");
    var config := EnsureRecord(entry, "config");
    var existing := At(config, "discovery");
    var discovery: Record, change: Change;
    if !existing.Rec? {
      discovery, change := legacy, Moved;
    } else {
      discovery := MergeMissing(existing.fields, legacy);
      change := if FillsField(existing.fields, legacy) then FilledMissing else AlreadySet;
    }
    config := config["discovery" := Rec(discovery)];
    entry := entry["config" := Rec(config)];
    entries := entries["amazon-bedrock" := Rec(entry)];
    plugins := plugins["entries" := Rec(entries)];
    nextRoot := nextRoot["plugins" := Rec(plugins)];
    return Migration(Rec(nextRoot), [change]);
  }

  lemma LookupLegacy(raw: Json)
    ensures Lookup(raw, LEGACY_PATH) ==
            if raw.Rec? && At(raw.fields, "models").Rec? then At(At(raw.fields, "models").fields, "bedrockDiscovery") else Undefined
  {
    assert LEGACY_PATH[1..] == ["bedrockDiscovery"] && LEGACY_PATH[1..][1..] == [];
  }

  lemma LookupTarget(root: Record)
    ensures Lookup(Rec(root), TARGET_PATH) ==
            At(RecordAt(RecordAt(RecordAt(RecordAt(root, "plugins"), "entries"), "amazon-bedrock"), "config"), "discovery")
  {
    LookupIn(root, TARGET_PATH);
    LookupIn(RecordAt(root, "plugins"), TARGET_PATH[1..]);
    LookupIn(RecordAt(RecordAt(root, "plugins"), "entries"), TARGET_PATH[2..]);
    LookupIn(RecordAt(RecordAt(RecordAt(root, "plugins"), "entries"), "amazon-bedrock"), TARGET_PATH[3..]);
    assert TARGET_PATH[1..][1..] == TARGET_PATH[2..] && TARGET_PATH[2..][1..] == TARGET_PATH[3..] && TARGET_PATH[3..][1..] == TARGET_PATH[4..];
    LookupStep(RecordAt(RecordAt(RecordAt(RecordAt(root, "plugins"), "entries"), "amazon-bedrock"), "config"), TARGET_PATH[4..]);
    assert TARGET_PATH[4..][1..] == [];
  }

  lemma LookupIn(r: Record, path: Path)
    requires |path| > 1
    ensures Lookup(Rec(r), path) == Lookup(Rec(RecordAt(r, path[0])), path[1..])
  {
    LookupStep(r, path);
    if !At(r, path[0]).Rec? {
      LookupStep(map[], path[1..]);
      LookupUndefined(path[1..][1..]);
    }
  }

  lemma SetTarget(root: Record)
    ensures forall v {:trigger SetAt(root, TARGET_PATH, v)} ::
      var plugins := RecordAt(root, "plugins");
      var entries := RecordAt(plugins, "entries");
      var entry := RecordAt(entries, "amazon-bedrock");
      var config := RecordAt(entry, "config");
      SetAt(root, TARGET_PATH, v) ==
        root["plugins" := Rec(plugins["entries" := Rec(entries["amazon-bedrock" :=
          Rec(entry["config" := Rec(config["discovery" := v])])])])]
  {
    assert TARGET_PATH[1..][1..] == TARGET_PATH[2..] && TARGET_PATH[2..][1..] == TARGET_PATH[3..] && TARGET_PATH[3..][1..] == TARGET_PATH[4..];
    forall v ensures SetAt(root, TARGET_PATH, v) ==
      root["plugins" := Rec(SetAt(RecordAt(root, "plugins"), TARGET_PATH[1..], v))] {}
    forall r: Record, v ensures SetAt(r, TARGET_PATH[1..], v) == r["entries" := Rec(SetAt(RecordAt(r, "entries"), TARGET_PATH[2..], v))] {}
    forall r: Record, v ensures SetAt(r, TARGET_PATH[2..], v) == r["amazon-bedrock" := Rec(SetAt(RecordAt(r, "amazon-bedrock"), TARGET_PATH[3..], v))] {}
    forall r: Record, v ensures SetAt(r, TARGET_PATH[3..], v) == r["config" := Rec(SetAt(RecordAt(r, "config"), TARGET_PATH[4..], v))] {}
    forall r: Record, v ensures SetAt(r, TARGET_PATH[4..], v) == r["discovery" := v] {}
  }

  // ----- what stays as it was -----

  lemma WithoutLegacyElsewhere(root: Record, p: Path)
    requires !Overlaps(p, LEGACY_PATH)
    ensures Lookup(Rec(WithoutLegacy(root)), p) == Lookup(Rec(root), p)
  {
    var after := WithoutLegacy(root);
    LookupStep(after, p);
    LookupStep(root, p);
    if p[0] == "models" {
      var models := RecordAt(root, "models");
      assert |p| > 1 && p[1] != "bedrockDiscovery" by {
        assert p == [p[0]] + p[1..];
        if |p| > 1 { assert p[1..] == [p[1]] + p[2..]; }
      }
      LookupIn(after, p);
      LookupIn(root, p);
      LookupStep(RecordAt(after, "models"), p[1..]);
      LookupStep(models, p[1..]);
    }
  }

  lemma WithoutLegacyGone(root: Record)
    ensures Lookup(Rec(WithoutLegacy(root)), LEGACY_PATH) == Undefined
    ensures PluginDiscovery(Rec(WithoutLegacy(root))) == PluginDiscovery(Rec(root))
  {
    LookupLegacy(Rec(WithoutLegacy(root)));
    assert TARGET_PATH[0] != LEGACY_PATH[0];
    WithoutLegacyElsewhere(root, TARGET_PATH);
  }

  /** Outside the legacy path and the plugin's discovery path, the config reads the same everywhere. */
  lemma UnrelatedConfigUnchanged(raw: Json, p: Path)
    requires !Overlaps(p, LEGACY_PATH) && !Overlaps(p, TARGET_PATH)
    ensures Lookup(Migrated(raw).config, p) == Lookup(raw, p)
  {
    hide FillsField, Merge;
    if LegacyDiscovery(raw).Some? {
      var root := WithoutLegacy(raw.fields);
      WithoutLegacyElsewhere(raw.fields, p);
      var existing := PluginDiscovery(Rec(root));
      LookupSetAt(root, TARGET_PATH,
        Rec(if existing.Some? then Merge(existing.value, LegacyDiscovery(raw).value) else LegacyDiscovery(raw).value), p);
    }
  }

  lemma MigratedDiscovery(raw: Json)
    requires LegacyDiscovery(raw).Some?
    ensures LegacyDiscovery(Migrated(raw).config).None?
    ensures PluginDiscovery(Migrated(raw).config) ==
            if LegacyDiscovery(raw).value == map[] then PluginDiscovery(raw)
            else if PluginDiscovery(raw).None? then LegacyDiscovery(raw)
            else Some(Merge(PluginDiscovery(raw).value, LegacyDiscovery(raw).value))
  {
    hide FillsField, Merge;
    var legacy := LegacyDiscovery(raw).value;
    var root := WithoutLegacy(raw.fields);
    WithoutLegacyGone(raw.fields);
    if legacy != map[] {
      var existing := PluginDiscovery(Rec(root));
      var value := Rec(if existing.Some? then Merge(existing.value, legacy) else legacy);
      assert LEGACY_PATH[0] != TARGET_PATH[0];
      LookupSetAt(root, TARGET_PATH, value, LEGACY_PATH);
    }
  }

  /** A second migration changes nothing. */
  lemma MigrationIdempotent(raw: Json)
    ensures Migrated(Migrated(raw).config) == Migration(Migrated(raw).config, [])
  {
    if LegacyDiscovery(raw).Some? {
      MigratedDiscovery(raw);
    }
  }

  // ----- what it means -----

  function FieldsOf(r: Option<Record>): Record {
    if r.Some? then r.value else map[]
  }

  /** `{ ...legacy, ...plugin }` in `resolveImplicitBedrockProvider`. */
  function EffectiveDiscovery(raw: Json): Record {
    FieldsOf(LegacyDiscovery(raw)) + FieldsOf(PluginDiscovery(raw))
  }

  /** Reading any field of the effective config gives the same value. */
  ghost predicate SameMeaning(a: Record, b: Record) {
    forall k :: At(a, k) == At(b, k)
  }

  /**
   * Where both sides hold a record the plugin's covers the legacy one, no plugin field is present
   * but undefined where the legacy config has one, and every other legacy field can be moved.
   */
  predicate Compatible(plugin: Record, legacy: Record) {
    forall k :: k in legacy && legacy[k] != Undefined ==>
      if k !in plugin then !IsBlockedObjectKey(k)
      else !IsBlockedObjectKey(k) ==>
        plugin[k] != Undefined && (plugin[k].Rec? && legacy[k].Rec? ==> Covers(plugin[k].fields, legacy[k].fields))
  }

  lemma FieldMeaning(plugin: Record, legacy: Record, k: string)
    ensures At(Merge(plugin, legacy), k) == At(legacy + plugin, k) <==>
      (k in legacy && legacy[k] != Undefined ==>
        if k !in plugin then !IsBlockedObjectKey(k)
        else !IsBlockedObjectKey(k) ==>
          plugin[k] != Undefined && (plugin[k].Rec? && legacy[k].Rec? ==> Covers(plugin[k].fields, legacy[k].fields)))
  {
    hide Covers, Merge;
    MergeAt(plugin, legacy, k);
    if k in legacy && Offers(legacy, k) && k in plugin && plugin[k].Rec? && legacy[k].Rec? {
      MergeNoopIffCovered(plugin[k].fields, legacy[k].fields);
    }
  }

  /** The migration keeps the effective config exactly when there is no plugin config or it is compatible. */
  lemma MigrationKeepsMeaning(raw: Json)
    requires LegacyDiscovery(raw).Some?
    ensures SameMeaning(EffectiveDiscovery(raw), EffectiveDiscovery(Migrated(raw).config)) <==>
            (PluginDiscovery(raw).None? || Compatible(PluginDiscovery(raw).value, LegacyDiscovery(raw).value))
  {
    hide LegacyDiscovery, PluginDiscovery, Migrated;
    var legacy := LegacyDiscovery(raw).value;
    MigratedDiscovery(raw);
    assert legacy + map[] == legacy;
    if PluginDiscovery(raw).Some? {
      var plugin := PluginDiscovery(raw).value;
      assert map[] + plugin == plugin;
      assert map[] + Merge(plugin, legacy) == Merge(plugin, legacy);
      if legacy == map[] {
        assert legacy + plugin == plugin;
      }
      forall k ensures At(Merge(plugin, legacy), k) == At(legacy + plugin, k) <==>
        (k in legacy && legacy[k] != Undefined ==>
          if k !in plugin then !IsBlockedObjectKey(k)
          else !IsBlockedObjectKey(k) ==>
            plugin[k] != Undefined && (plugin[k].Rec? && legacy[k].Rec? ==> Covers(plugin[k].fields, legacy[k].fields)))
      {
        FieldMeaning(plugin, legacy, k);
      }
    }
  }

  predicate Flat(r: Record) {
    forall k :: k in r ==> r[k] != Undefined && !r[k].Rec? && !IsBlockedObjectKey(k)
  }

  /** Flat records without undefined fields or blocked keys always qualify. */
  lemma FlatIsCompatible(plugin: Record, legacy: Record)
    requires Flat(plugin) && Flat(legacy)
    ensures Compatible(plugin, legacy)
    ensures FillsField(plugin, legacy) <==> Merge(plugin, legacy) != plugin
  {
    MergeNoopIffCovered(plugin, legacy);
  }

  /** Merging changes the plugin config: a field or something inside a nested record is filled. */
  lemma FillsFieldChanges(plugin: Record, legacy: Record)
    requires FillsField(plugin, legacy)
    ensures Merge(plugin, legacy) != plugin
  {
    var k :| k in legacy && Offers(legacy, k) && At(plugin, k) == Undefined;
    MergeAt(plugin, legacy, k);
    assert !Covers(plugin, legacy);
    MergeNoopIffCovered(plugin, legacy);
  }

  /** The report says "filled" exactly when the plugin config changed if a field is filled or nothing is missing at all. */
  lemma FilledIffChanged(plugin: Record, legacy: Record)
    ensures (FillsField(plugin, legacy) <==> Merge(plugin, legacy) != plugin)
        <==> (FillsField(plugin, legacy) || Covers(plugin, legacy))
  {
    MergeNoopIffCovered(plugin, legacy);
    if FillsField(plugin, legacy) { FillsFieldChanges(plugin, legacy); }
  }

  /**
   * The change message of a merge is right exactly when a top-level field is filled or the plugin config already
   * covers the legacy one at every level.
   */
  lemma ReportAccurateIff(raw: Json)
    requires LegacyDiscovery(raw).Some? && LegacyDiscovery(raw).value != map[] && PluginDiscovery(raw).Some?
    ensures var plugin, legacy := PluginDiscovery(raw).value, LegacyDiscovery(raw).value;
      (Migrated(raw).changes == [FilledMissing] <==> PluginDiscovery(Migrated(raw).config) != Some(plugin))
      <==> (FillsField(plugin, legacy) || Covers(plugin, legacy))
  {
    MigratedDiscovery(raw);
    WithoutLegacyGone(raw.fields);
    FilledIffChanged(PluginDiscovery(raw).value, LegacyDiscovery(raw).value);
    hide Merge, FillsField, Covers, PluginDiscovery;
  }

  /** The smallest merge that fills something and reports nothing filled. */
  lemma ReportMissesNestedFill()
    ensures var plugin: Record := map["a" := Rec(map["x" := Null])];
      var legacy: Record := map["a" := Rec(map["y" := Null])];
      !FillsField(plugin, legacy) && Merge(plugin, legacy) != plugin && !Compatible(plugin, legacy)
  {
    var inner: Record, innerLegacy: Record := map["x" := Null], map["y" := Null];
    var plugin: Record, legacy: Record := map["a" := Rec(inner)], map["a" := Rec(innerLegacy)];
    assert "y" in innerLegacy && Offers(innerLegacy, "y");
    assert !Covers(inner, innerLegacy);
    assert "a" in legacy && Offers(legacy, "a");
    assert !Covers(plugin, legacy);
    MergeNoopIffCovered(plugin, legacy);
  }

  // ----- the two records and the report, field by field -----

  /** `models` loses its legacy field, and goes altogether if nothing else is in it. */
  lemma ModelsAfter(raw: Json)
    requires LegacyDiscovery(raw).Some?
    ensures raw.Rec? && At(raw.fields, "models").Rec? && Migrated(raw).config.Rec?
    ensures var before, after := RecordAt(raw.fields, "models"), Migrated(raw).config.fields;
      if forall k :: k in before ==> k == "bedrockDiscovery" then "models" !in after
      else At(after, "models") == Rec(map k | k in before && k != "bedrockDiscovery" :: before[k])
  {
    LookupLegacy(raw);
    hide Merge, FillsField, PluginDiscovery;
    var before, root := RecordAt(raw.fields, "models"), WithoutLegacy(raw.fields);
    var kept := map k | k in before && k != "bedrockDiscovery" :: before[k];
    assert before - {"bedrockDiscovery"} == kept;
    assert kept == map[] <==> forall k :: k in before ==> k == "bedrockDiscovery" by {
      if k :| k in before && k != "bedrockDiscovery" { assert k in kept; }
    }
    assert TARGET_PATH[0] == "plugins";
  }

  /** The report, in terms of the two records: nothing, an empty one removed, moved, merged with some field filled, or removed. */
  lemma ReportSpelledOut(raw: Json)
    ensures var legacy, plugin := LegacyDiscovery(raw), PluginDiscovery(raw);
      Migrated(raw).changes ==
        if legacy == None then []
        else if legacy.value == map[] then [RemovedEmpty]
        else if plugin == None then [Moved]
        else if exists k :: k in legacy.value && legacy.value[k] != Undefined && At(plugin.value, k) == Undefined
                            && k !in {"__proto__", "prototype", "constructor"} then [FilledMissing]
        else [AlreadySet]
  {
    if LegacyDiscovery(raw).Some? {
      WithoutLegacyGone(raw.fields);
      if PluginDiscovery(raw).Some? {
        FillsFieldIff(PluginDiscovery(raw).value, LegacyDiscovery(raw).value);
      }
    }
    hide Merge, FillsField, WithoutLegacy;
  }

  lemma FillsFieldIff(plugin: Record, legacy: Record)
    ensures FillsField(plugin, legacy) <==>
      exists k :: k in legacy && legacy[k] != Undefined && At(plugin, k) == Undefined
                  && k !in {"__proto__", "prototype", "constructor"}
  {
    forall k ensures k in {"__proto__", "prototype", "constructor"} <==> IsBlockedObjectKey(k) {}
    hide IsBlockedObjectKey;
  }

  /** Without a legacy record nothing changes, and an empty one leaves everything beside `models`. */
  lemma LittleChanges(raw: Json, key: string)
    ensures LegacyDiscovery(raw).None? ==> Migrated(raw).config == raw
    ensures LegacyDiscovery(raw) == Some(map[]) && key != "models" ==>
      raw.Rec? && Migrated(raw).config.Rec? && At(Migrated(raw).config.fields, key) == At(raw.fields, key)
  {
    LookupLegacy(raw);
    hide Merge, FillsField, PluginDiscovery, SetAt;
  }
}
