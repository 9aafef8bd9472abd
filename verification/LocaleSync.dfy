/** `syncLocale` of `scripts/control-ui-i18n.ts`: which value every key gets, and what is written back. */
module LocaleSync {
  import opened Results
  import opened Sequences
  import opened OrderedMaps
  import opened TranslationTree
  import TranslationBatches

  const WORKFLOW := 1

  datatype Meta = Meta(
    fallbackKeys: seq<string>, generatedAt: string, locale: string, model: string, provider: string,
    sourceHash: string, totalKeys: int, translatedKeys: int, workflow: int)

  datatype Memory = Memory(translated: string, updatedAt: string)

  type TranslationMemory = map<string, Memory>

  datatype Glossary = Glossary(terms: seq<(string, string)>)

  /** File contents, `None` for a missing file. */
  datatype Files = Files(
    locale: Option<string>, meta: Option<string>, glossary: Option<string>, memory: Option<string>)

  /** Rendering and parsing of the four files, formatter included. */
  datatype Codec = Codec(
    renderLocale: Entries -> string, parseLocale: string -> Entries,
    renderMeta: Meta -> string, parseMeta: string -> Meta,
    renderGlossary: Glossary -> string, parseGlossary: string -> Glossary,
    renderMemory: TranslationMemory -> string, parseMemory: string -> TranslationMemory)

  /** Everything a run reads besides the locale's own files. */
  datatype Env = Env(
    locale: string,
    source: Flat,
    sourceHash: string,
    allowTranslate: bool,
    provider: string,
    model: string,
    now: string,
    budget: real,
    defaultGlossary: Glossary,
    /** `cacheKey(key, hashText(text), locale)`, for one provider and model. */
    cacheKey: (string, string) -> string,
    textHash: string -> string,
    /** `left.localeCompare(right) <= 0` */
    leq: (string, string) -> bool,
    codec: Codec)

  datatype Options = Options(checkOnly: bool, force: bool, write: bool)

  /** What is loaded from the locale's files. */
  datatype Loaded = Loaded(existing: Flat, meta: Option<Meta>, glossary: Glossary, memory: TranslationMemory)

  function Load(env: Env, files: Files): Loaded {
    Loaded(
      if files.locale.Some? then Flattened(env.codec.parseLocale(files.locale.value)) else [],
      if files.meta.Some? then Some(env.codec.parseMeta(files.meta.value)) else None,
      if files.glossary.Some? then env.codec.parseGlossary(files.glossary.value) else Glossary([]),
      if files.memory.Some? then env.codec.parseMemory(files.memory.value) else map[])
  }

  function PreviousFallbacks(loaded: Loaded): seq<string> {
    if loaded.meta.Some? then loaded.meta.value.fallbackKeys else []
  }

  // ----- the decision for one key -----

  datatype Decision = Keep(value: string) | Translate

  function Refresh(loaded: Loaded, key: string): bool {
    key in PreviousFallbacks(loaded)
  }

  function Decide(env: Env, loaded: Loaded, key: string, text: string): Decision {
    var cacheKey := env.cacheKey(key, text);
    if cacheKey in loaded.memory && !(env.allowTranslate && Refresh(loaded, key))
    then Keep(loaded.memory[cacheKey].translated)
    else if Get(loaded.existing, key).Some? && !(env.allowTranslate && Refresh(loaded, key))
    then Keep(Get(loaded.existing, key).value)
    else Translate
  }

  datatype Final = Final(value: string, fallback: bool)

  /** The value a key ends up with, and whether it is recorded as a fallback. */
  function Settle(env: Env, loaded: Loaded, force: bool, translated: map<string, string>, key: string, text: string): Final {
    match Decide(env, loaded, key, text)
    case Keep(value) => Final(value, Refresh(loaded, key))
    case Translate =>
      if key in translated then Final(translated[key], false)
      else if Get(loaded.existing, key).Some? && !force
      then Final(Get(loaded.existing, key).value, Refresh(loaded, key))
      else Final(text, true)
  }

  function ItemFor(env: Env, key: string, text: string): TranslationBatches.Item {
    TranslationBatches.Item(env.cacheKey(key, text), key, text, env.textHash(text))
  }

  function Pending(env: Env, loaded: Loaded, source: Flat): seq<TranslationBatches.Item> {
    if source == [] then []
    else
      var (key, text) := source[|source|-1];
      Pending(env, loaded, source[..|source|-1])
      + (if Decide(env, loaded, key, text).Keep? then [] else [ItemFor(env, key, text)])
  }

  function KeptFallbacks(env: Env, loaded: Loaded, source: Flat): seq<string> {
    if source == [] then []
    else
      var (key, text) := source[|source|-1];
      KeptFallbacks(env, loaded, source[..|source|-1])
      + (if Decide(env, loaded, key, text).Keep? && Refresh(loaded, key) then [key] else [])
  }

  function PendingFallbacks(
    env: Env, loaded: Loaded, force: bool, translated: map<string, string>, items: seq<TranslationBatches.Item>): seq<string>
  {
    if items == [] then []
    else
      var item := items[|items|-1];
      PendingFallbacks(env, loaded, force, translated, items[..|items|-1])
      + (if Settle(env, loaded, force, translated, item.key, item.text).fallback then [item.key] else [])
  }

  function FallbackKeys(env: Env, loaded: Loaded, force: bool, translated: map<string, string>): seq<string> {
    KeptFallbacks(env, loaded, env.source)
    + PendingFallbacks(env, loaded, force, translated, Pending(env, loaded, env.source))
  }

  /** `nextFlat` in source order. */
  function NextFlat(env: Env, loaded: Loaded, force: bool, translated: map<string, string>, source: Flat): (r: Flat)
    ensures |r| == |source|
    ensures forall i :: 0 <= i < |r| ==>
              r[i] == (source[i].0, Settle(env, loaded, force, translated, source[i].0, source[i].1).value)
  {
    seq(|source|, i requires 0 <= i < |source| =>
      (source[i].0, Settle(env, loaded, force, translated, source[i].0, source[i].1).value))
  }

  /** The memory after the translated items were stored. */
  function Remember(env: Env, memory: TranslationMemory, translated: map<string, string>, items: seq<TranslationBatches.Item>): TranslationMemory {
    if items == [] then memory
    else
      var item := items[|items|-1];
      var before := Remember(env, memory, translated, items[..|items|-1]);
      if item.key in translated && translated[item.key] != ""
      then before[item.cacheKey := Memory(translated[item.key], env.now)]
      else before
  }

  // ----- the whole run -----

  function NextMeta(env: Env, loaded: Loaded, fallbackKeys: seq<string>): Meta {
    var provider := if env.allowTranslate then env.provider else if loaded.meta.Some? then loaded.meta.value.provider else "";
    var model := if env.allowTranslate then env.model else if loaded.meta.Some? then loaded.meta.value.model else "";
    var translatedKeys := |env.source| - |fallbackKeys|;
    var semanticChanged :=
      || loaded.meta.None?
      || loaded.meta.value.locale != env.locale
      || loaded.meta.value.sourceHash != env.sourceHash
      || loaded.meta.value.provider != provider
      || loaded.meta.value.model != model
      || loaded.meta.value.totalKeys != |env.source|
      || loaded.meta.value.translatedKeys != translatedKeys
      || loaded.meta.value.workflow != WORKFLOW
      || loaded.meta.value.fallbackKeys != fallbackKeys;
    Meta(
      fallbackKeys, if semanticChanged then env.now else loaded.meta.value.generatedAt,
      env.locale, model, provider, env.sourceHash, |env.source|, translatedKeys, WORKFLOW)
  }

  datatype Plan = Plan(values: Flat, meta: Meta, glossary: Glossary, memory: TranslationMemory)

  function PlanFor(env: Env, loaded: Loaded, force: bool, translated: map<string, string>): Plan {
    Plan(
      NextFlat(env, loaded, force, translated, env.source),
      NextMeta(env, loaded, ToSorted(env.leq, FallbackKeys(env, loaded, force, translated))),
      if |loaded.glossary.terms| == 0 then env.defaultGlossary else loaded.glossary,
      Remember(env, loaded.memory, translated, Pending(env, loaded, env.source)))
  }

  function Expected(env: Env, plan: Plan): Files {
    Files(
      Some(env.codec.renderLocale(Rebuilt(plan.values))),
      Some(env.codec.renderMeta(plan.meta)),
      Some(env.codec.renderGlossary(plan.glossary)),
      Some(env.codec.renderMemory(plan.memory)))
  }

  function ContentOf(file: Option<string>): string {
    if file.Some? then file.value else ""
  }

  predicate Changed(files: Files, expected: Files) {
    || ContentOf(files.locale) != ContentOf(expected.locale)
    || ContentOf(files.meta) != ContentOf(expected.meta)
    || ContentOf(files.glossary) != ContentOf(expected.glossary)
    || ContentOf(files.memory) != ContentOf(expected.memory)
  }

  datatype Outcome = Outcome(changed: bool, fallbackCount: nat, wrote: bool)

  datatype SyncResult = SyncResult(files: Files, outcome: Outcome)

  /** An empty memory is written only over an existing file. */
  function Written(files: Files, expected: Files): Files {
    if ContentOf(expected.memory) == "" && files.memory.None?
    then expected.(memory := None)
    else expected
  }

  function Finish(env: Env, files: Files, options: Options, plan: Plan): SyncResult {
    var expected := Expected(env, plan);
    var changed := Changed(files, expected);
    var write := changed && !options.checkOnly && options.write;
    SyncResult(
      if write then Written(files, expected) else files,
      Outcome(changed, |plan.meta.fallbackKeys|, write))
  }

  function Sync(env: Env, files: Files, options: Options, translated: map<string, string>): SyncResult {
    Finish(env, files, options, PlanFor(env, Load(env, files), options.force, translated))
  }
}
