/** After one `sync --write` nothing is left to do, exactly when the source map survives a rebuild. */
module LocaleSyncFixpoint {
  import opened Results
  import opened Sequences
  import opened OrderedMaps
  import opened Text
  import opened DottedKeys
  import opened TranslationTree
  import opened TranslationRoundTrip
  import opened TranslationLookup
  import opened TranslationExactness
  import opened LocaleSync
  import opened LocaleSyncRun
  import TranslationBatches
  import TranslationRetry

  /** Maps a JavaScript object can hold by assignment: assigning to `__proto__` makes no key of that name. */
  ghost predicate Ordinary(entries: Entries) {
    WellKeyed(entries) && forall e :: e in PathsOf(entries) ==> "__proto__" !in e.0
  }

  ghost predicate OrdinaryKeys(flat: Flat) {
    forall i :: 0 <= i < |flat| ==> "__proto__" !in Split(flat[i].0)
  }

  /** `Number.MAX_SAFE_INTEGER` */
  const MAX_SAFE_INTEGER := 0x1F_FFFF_FFFF_FFFF

  predicate Safe(n: int) {
    -MAX_SAFE_INTEGER <= n <= MAX_SAFE_INTEGER
  }

  predicate SafeMeta(meta: Meta) {
    Safe(meta.totalKeys) && Safe(meta.translatedKeys) && Safe(meta.workflow)
  }

  /** What the loader of the translation memory lets through. */
  ghost predicate Storable(memory: TranslationMemory) {
    forall k :: k in memory ==> k != "" && Trim(memory[k].translated) != ""
  }

  /**
   * Serialise then parse. A locale module may come back with its keys in another order; integers
   * come back while they are safe; the loader of the memory drops what is not storable.
   */
  ghost predicate Faithful(codec: Codec) {
    && (forall x :: Ordinary(x) ==>
          codec.renderLocale(x) != "" && WellKeyed(codec.parseLocale(codec.renderLocale(x)))
          && SameTexts(codec.parseLocale(codec.renderLocale(x)), x))
    && (forall x :: SafeMeta(x) ==> codec.parseMeta(codec.renderMeta(x)) == x && codec.renderMeta(x) != "")
    && (forall x :: codec.parseGlossary(codec.renderGlossary(x)) == x && codec.renderGlossary(x) != "")
    && (forall x :: Storable(x) ==> codec.parseMemory(codec.renderMemory(x)) == x)
    && (forall s :: Storable(codec.parseMemory(s)))
    && codec.parseMemory("") == map[]
  }

  /** The hash does not confuse two keys. */
  ghost predicate InjectiveCacheKey(env: Env) {
    forall k1, t1, k2, t2 :: env.cacheKey(k1, t1) == env.cacheKey(k2, t2) ==> k1 == k2
  }

  /** Digests are never empty. */
  ghost predicate NonEmptyCacheKeys(env: Env) {
    forall k, t :: env.cacheKey(k, t) != ""
  }

  ghost predicate Sensible(env: Env) {
    && NoDuplicates(KeysOf(env.source)) && OrdinaryKeys(env.source) && Safe(|env.source|)
    && Faithful(env.codec) && StrictOrder(env.leq)
    && InjectiveCacheKey(env) && NonEmptyCacheKeys(env)
  }

  /** What `SyncLocale` returns as translations. */
  ghost predicate Translates(env: Env, loaded: Loaded, translated: map<string, string>) {
    if env.allowTranslate then Complete(translated, Pending(env, loaded, env.source)) else translated == map[]
  }

  // ----- every key once -----

  lemma FallbacksAreKeys(env: Env, loaded: Loaded, force: bool, translated: map<string, string>)
    requires NoDuplicates(KeysOf(env.source))
    ensures var sorted := ToSorted(env.leq, FallbackKeys(env, loaded, force, translated));
      && NoDuplicates(sorted) && |sorted| <= |env.source|
      && forall k :: k in sorted <==> IsFallback(env, loaded, force, translated, k)
  {
    hide Settle, FallbackKeys;
    var keys := FallbackKeys(env, loaded, force, translated);
    FallbackKeysExact(env, loaded, force, translated);
    PermutationKeepsNoDuplicates(ToSorted(env.leq, keys), keys);
    SamePermutationMembers(ToSorted(env.leq, keys), keys);
    forall k | k in keys ensures k in KeysOf(env.source) {
      var i :| 0 <= i < |env.source| && env.source[i].0 == k && Settle(env, loaded, force, translated, k, env.source[i].1).fallback;
      assert KeysOf(env.source)[i] == k;
    }
    SubsetLength(keys, KeysOf(env.source));
  }

  /** One value per source key, in source order; fallbacks are source keys, and the counts add up. */
  lemma EveryKeyOnce(env: Env, loaded: Loaded, force: bool, translated: map<string, string>)
    requires NoDuplicates(KeysOf(env.source))
    ensures var plan := PlanFor(env, loaded, force, translated);
      && KeysOf(plan.values) == KeysOf(env.source)
      && NoDuplicates(plan.meta.fallbackKeys)
      && (forall k :: k in plan.meta.fallbackKeys <==> IsFallback(env, loaded, force, translated, k))
      && plan.meta.translatedKeys + |plan.meta.fallbackKeys| == plan.meta.totalKeys == |env.source|
      && 0 <= plan.meta.translatedKeys
  {
    hide Settle, IsFallback, NoDuplicates, FallbackKeys, Pending;
    FallbacksAreKeys(env, loaded, force, translated);
    assert KeysOf(PlanFor(env, loaded, force, translated).values) == KeysOf(env.source);
  }

  lemma {:induction false} SubsetLength(a: seq<string>, b: seq<string>)
    requires NoDuplicates(a) && forall x :: x in a ==> x in b
    ensures |a| <= |b|
    decreases |b|
  {
    if a != [] {
      var last := a[|a|-1];
      assert last in a && last in b;
      var i :| 0 <= i < |b| && b[i] == last;
      var rest := b[..i] + b[i+1..];
      forall x | x in a[..|a|-1] ensures x in rest {
        assert x in a && x in b;
        var j :| 0 <= j < |b| && b[j] == x;
        assert x != last;
        assert if j < i then rest[j] == x else rest[j-1] == x;
      }
      SubsetLength(a[..|a|-1], rest);
    }
  }

  /** A run with a provider that ends without an error leaves no fallback key. */
  lemma ProviderLeavesNoFallback(env: Env, loaded: Loaded, force: bool, translated: map<string, string>)
    requires NoDuplicates(KeysOf(env.source)) && env.allowTranslate && Translates(env, loaded, translated)
    ensures PlanFor(env, loaded, force, translated).meta.fallbackKeys == []
  {
    hide NoDuplicates;
    EveryKeyOnce(env, loaded, force, translated);
    forall i | 0 <= i < |env.source|
      ensures !Settle(env, loaded, force, translated, env.source[i].0, env.source[i].1).fallback
    {
      PendingTranslated(env, loaded, translated, i);
    }
    var keys := PlanFor(env, loaded, force, translated).meta.fallbackKeys;
    assert |keys| > 0 ==> IsFallback(env, loaded, force, translated, keys[0]);
  }

  lemma PendingTranslated(env: Env, loaded: Loaded, translated: map<string, string>, i: nat)
    requires NoDuplicates(KeysOf(env.source)) && env.allowTranslate && Translates(env, loaded, translated)
    requires i < |env.source|
    ensures Decide(env, loaded, env.source[i].0, env.source[i].1).Translate? ==> env.source[i].0 in translated
  {
    hide NoDuplicates, Decide;
    if Decide(env, loaded, env.source[i].0, env.source[i].1).Translate? {
      PendingItems(env, loaded);
      var item := ItemFor(env, env.source[i].0, env.source[i].1);
      assert Queued(env, loaded, |env.source|, item);
      assert item in Pending(env, loaded, env.source);
      assert item.key in TranslationRetry.KeysOf(Pending(env, loaded, env.source));
    }
  }

  // ----- reading back what was written -----

  /** What the second run loads, when the locale module reads as `tree`. */
  function Reloaded(plan: Plan, tree: Entries): Loaded {
    Loaded(Flattened(tree), Some(plan.meta), plan.glossary, plan.memory)
  }

  /** A plan whose four files survive being written and read. */
  ghost predicate Writable(plan: Plan) {
    OrdinaryKeys(plan.values) && SafeMeta(plan.meta) && Storable(plan.memory)
  }

  lemma RebuiltOrdinary(flat: Flat)
    requires OrdinaryKeys(flat)
    ensures Ordinary(Rebuilt(flat))
  {
    RebuiltRebuilds(flat);
    RebuiltPaths(flat, Rebuilt(flat));
    forall e | e in PathsOf(Rebuilt(flat)) ensures "__proto__" !in e.0 {
      assert e in SplitKeys(flat);
      var i :| 0 <= i < |flat| && SplitKeys(flat)[i] == e;
    }
  }

  lemma {:induction false} RememberStorable(
    env: Env, memory: TranslationMemory, translated: map<string, string>, items: seq<TranslationBatches.Item>)
    requires Storable(memory) && forall i :: i in items ==> i.cacheKey != ""
    requires forall k :: k in translated ==> Trim(translated[k]) != ""
    ensures Storable(Remember(env, memory, translated, items))
  {
    hide Trim;
    if items != [] {
      assert items[|items|-1] in items;
      RememberStorable(env, memory, translated, items[..|items|-1]);
    }
  }

  lemma LoadedStorable(env: Env, files: Files)
    requires Faithful(env.codec)
    ensures Storable(Load(env, files).memory)
  {
  }

  /** Whatever a run loaded, it plans what survives being written. */
  lemma PlanWritable(env: Env, loaded: Loaded, force: bool, translated: map<string, string>)
    requires Sensible(env) && Storable(loaded.memory) && Translates(env, loaded, translated)
    ensures Writable(PlanFor(env, loaded, force, translated))
  {
    var plan := PlanFor(env, loaded, force, translated);
    EveryKeyOnce(env, loaded, force, translated);
    ItemsFromSource(env, loaded);
    hide NoDuplicates, Faithful, StrictOrder, InjectiveCacheKey, Pending, Settle, FallbackKeys, ToSorted, Remember, Trim;
    forall i | 0 <= i < |plan.values| ensures "__proto__" !in Split(plan.values[i].0) {
      assert KeysOf(plan.values)[i] == KeysOf(env.source)[i];
    }
    RememberStorable(env, loaded.memory, translated, Pending(env, loaded, env.source));
  }

  lemma WriteThenLoad(env: Env, env2: Env, files: Files, options: Options, plan: Plan)
    requires Faithful(env.codec) && env2.codec == env.codec && Writable(plan)
    requires options.write && !options.checkOnly
    ensures exists tree :: Rebuilds(plan.values, tree)
              && Load(env2, Finish(env, files, options, plan).files) == Reloaded(plan, tree)
    ensures !Changed(Finish(env, files, options, plan).files, Expected(env, plan))
  {
    hide OrdinaryKeys, SafeMeta, Storable, Ordinary, Rebuilt, Flattened;
    var codec := env.codec;
    RebuiltOrdinary(plan.values);
    var tree := codec.parseLocale(codec.renderLocale(Rebuilt(plan.values)));
    assert Rebuilds(plan.values, tree);
    assert codec.parseMeta(codec.renderMeta(plan.meta)) == plan.meta && codec.renderMeta(plan.meta) != "";
    assert codec.parseGlossary(codec.renderGlossary(plan.glossary)) == plan.glossary;
    assert codec.renderGlossary(plan.glossary) != "";
    assert codec.parseMemory(codec.renderMemory(plan.memory)) == plan.memory;
    assert Load(env2, Finish(env, files, options, plan).files) == Reloaded(plan, tree);
  }

  /** The reloaded locale file gives every source key the value it was written with. */
  lemma ReloadedValue(values: Flat, tree: Entries, i: nat)
    requires Rebuilds(values, tree)
    requires NoDuplicates(KeysOf(values)) && RoundTrippable(values) && i < |values|
    ensures Get(Flattened(tree), values[i].0) == Some(values[i].1)
  {
    hide NoDuplicates, RoundTrippable, Rebuilds;
    FlattenRebuilt(values, tree);
    var out := Flattened(tree);
    assert values[i] in values;
    MemberKey(out, values[i]);
    GetPlace(out, values[i].0);
    var e := (values[i].0, Get(out, values[i].0).value);
    assert e in out && e in values;
    var j :| 0 <= j < |values| && values[j] == e;
    DistinctKeys(values, j, i);
  }

  ghost predicate StoresKey(ck: string, translated: map<string, string>, items: seq<TranslationBatches.Item>) {
    exists i :: i in items && i.cacheKey == ck && i.key in translated && translated[i.key] != ""
  }

  /** What the memory holds for a cache key after the translated items were stored. */
  lemma {:induction false} RememberedValue(
    env: Env, memory: TranslationMemory, translated: map<string, string>, items: seq<TranslationBatches.Item>,
    key: string, text: string)
    requires InjectiveCacheKey(env)
    requires forall i :: i in items ==> exists t :: i.cacheKey == env.cacheKey(i.key, t)
    ensures var ck := env.cacheKey(key, text);
      var after := Remember(env, memory, translated, items);
      if StoresKey(ck, translated, items)
      then key in translated && ck in after && after[ck].translated == translated[key]
      else (ck in after <==> ck in memory) && (ck in memory ==> after[ck] == memory[ck])
  {
    if items != [] {
      var front, last := items[..|items|-1], items[|items|-1];
      var ck := env.cacheKey(key, text);
      assert last in items;
      forall i | i in front ensures i in items {}
      RememberedValue(env, memory, translated, front, key, text);
      assert items == front + [last];
      var storesLast := last.cacheKey == ck && last.key in translated && translated[last.key] != "";
      assert StoresKey(ck, translated, items) <==> (StoresKey(ck, translated, front) || storesLast);
    }
  }

  lemma ItemsFromSource(env: Env, loaded: Loaded)
    requires NoDuplicates(KeysOf(env.source))
    ensures forall i :: i in Pending(env, loaded, env.source) ==> exists t :: i.cacheKey == env.cacheKey(i.key, t)
  {
    PendingItems(env, loaded);
    forall i | i in Pending(env, loaded, env.source) ensures exists t :: i.cacheKey == env.cacheKey(i.key, t) {
      assert Queued(env, loaded, |env.source|, i);
    }
  }

  lemma RoundTrippableKeys(a: Flat, b: Flat)
    requires KeysOf(a) == KeysOf(b)
    ensures RoundTrippable(a) <==> RoundTrippable(b)
  {
    assert |a| == |KeysOf(a)| == |KeysOf(b)| == |b|;
    forall i | 0 <= i < |a| ensures a[i].0 == b[i].0 {
      assert KeysOf(a)[i] == KeysOf(b)[i];
    }
  }

  /** The second run keeps every key: nothing is left to translate. */
  lemma SecondDecision(
    env: Env, env2: Env, loaded: Loaded, force: bool, translated: map<string, string>, tree: Entries, n: nat)
    requires Sensible(env) && Translates(env, loaded, translated) && RoundTrippable(env.source)
    requires env2 == env.(now := env2.now) && n < |env.source|
    requires Rebuilds(PlanFor(env, loaded, force, translated).values, tree)
    ensures var plan := PlanFor(env, loaded, force, translated);
      var final := Settle(env, loaded, force, translated, env.source[n].0, env.source[n].1);
      && Decide(env2, Reloaded(plan, tree), env.source[n].0, env.source[n].1) == Keep(final.value)
      && Refresh(Reloaded(plan, tree), env.source[n].0) == final.fallback
  {
    hide NoDuplicates, StrictOrder, Faithful, RoundTrippable, Settle, Remember;
    var plan := PlanFor(env, loaded, force, translated);
    var (key, text) := env.source[n];
    EveryKeyOnce(env, loaded, force, translated);
    RoundTrippableKeys(plan.values, env.source);
    ReloadedValue(plan.values, tree, n);
    RefreshAgain(env, loaded, force, translated, tree, n);
    if env.allowTranslate {
      ProviderLeavesNoFallback(env, loaded, force, translated);
    }
    MemoryAgain(env, loaded, force, translated, n);
  }

  lemma RefreshAgain(
    env: Env, loaded: Loaded, force: bool, translated: map<string, string>, tree: Entries, n: nat)
    requires NoDuplicates(KeysOf(env.source)) && n < |env.source|
    ensures var plan := PlanFor(env, loaded, force, translated);
      Refresh(Reloaded(plan, tree), env.source[n].0)
        == Settle(env, loaded, force, translated, env.source[n].0, env.source[n].1).fallback
  {
    hide NoDuplicates, Settle;
    EveryKeyOnce(env, loaded, force, translated);
    var k := env.source[n].0;
    if IsFallback(env, loaded, force, translated, k) {
      var i :| 0 <= i < |env.source| && env.source[i].0 == k && Settle(env, loaded, force, translated, k, env.source[i].1).fallback;
      DistinctKeys(env.source, i, n);
    }
  }

  lemma TranslatedIsStored(env: Env, loaded: Loaded, translated: map<string, string>, n: nat)
    requires NoDuplicates(KeysOf(env.source)) && env.allowTranslate && Translates(env, loaded, translated)
    requires n < |env.source| && Decide(env, loaded, env.source[n].0, env.source[n].1).Translate?
    ensures StoresKey(env.cacheKey(env.source[n].0, env.source[n].1), translated, Pending(env, loaded, env.source))
    ensures env.source[n].0 in translated
  {
    hide NoDuplicates, Decide, Trim;
    PendingItems(env, loaded);
    var item := ItemFor(env, env.source[n].0, env.source[n].1);
    assert Queued(env, loaded, |env.source|, item);
    assert item in Pending(env, loaded, env.source);
    assert item.key in TranslationRetry.KeysOf(Pending(env, loaded, env.source));
    TrimEmpty();
  }

  /** A memory hit in the second run is the value the first run settled on. */
  lemma MemoryAgain(env: Env, loaded: Loaded, force: bool, translated: map<string, string>, n: nat)
    requires NoDuplicates(KeysOf(env.source)) && InjectiveCacheKey(env) && Translates(env, loaded, translated)
    requires n < |env.source|
    ensures var (key, text) := env.source[n];
      var after := Remember(env, loaded.memory, translated, Pending(env, loaded, env.source));
      env.cacheKey(key, text) in after ==>
        after[env.cacheKey(key, text)].translated == Settle(env, loaded, force, translated, key, text).value
  {
    hide NoDuplicates, Remember, Pending;
    var (key, text) := env.source[n];
    var ck := env.cacheKey(key, text);
    var pending := Pending(env, loaded, env.source);
    var after := Remember(env, loaded.memory, translated, pending);
    ItemsFromSource(env, loaded);
    RememberedValue(env, loaded.memory, translated, pending, key, text);
    if ck in after {
      if Decide(env, loaded, key, text).Keep? {
        KeptNotPending(env, loaded, n);
      } else if env.allowTranslate {
        TranslatedIsStored(env, loaded, translated, n);
      }
    }
  }

  lemma NothingPending(env: Env, loaded: Loaded)
    requires NoDuplicates(KeysOf(env.source))
    requires forall n :: 0 <= n < |env.source| ==> Decide(env, loaded, env.source[n].0, env.source[n].1).Keep?
    ensures Pending(env, loaded, env.source) == []
  {
    hide NoDuplicates, Decide;
    PendingItems(env, loaded);
    var pending := Pending(env, loaded, env.source);
    assert |pending| > 0 ==> Queued(env, loaded, |env.source|, pending[0]);
  }

  ghost predicate SettlesAlike(
    env: Env, env2: Env, loaded: Loaded, loaded2: Loaded, force: bool, force2: bool, translated: map<string, string>)
  {
    forall n :: 0 <= n < |env.source| ==>
      Settle(env2, loaded2, force2, map[], env.source[n].0, env.source[n].1)
      == Settle(env, loaded, force, translated, env.source[n].0, env.source[n].1)
  }

  lemma SecondSettles(
    env: Env, env2: Env, loaded: Loaded, force: bool, force2: bool, translated: map<string, string>, tree: Entries)
    requires Sensible(env) && Translates(env, loaded, translated) && RoundTrippable(env.source)
    requires env2 == env.(now := env2.now) && Rebuilds(PlanFor(env, loaded, force, translated).values, tree)
    ensures var loaded2 := Reloaded(PlanFor(env, loaded, force, translated), tree);
      && Pending(env2, loaded2, env.source) == []
      && SettlesAlike(env, env2, loaded, loaded2, force, force2, translated)
  {
    hide NoDuplicates, StrictOrder, Faithful, RoundTrippable, Decide, Refresh, InjectiveCacheKey, Pending, PlanFor;
    var loaded2 := Reloaded(PlanFor(env, loaded, force, translated), tree);
    forall n | 0 <= n < |env.source|
      ensures Decide(env2, loaded2, env.source[n].0, env.source[n].1).Keep?
      ensures Settle(env2, loaded2, force2, map[], env.source[n].0, env.source[n].1)
           == Settle(env, loaded, force, translated, env.source[n].0, env.source[n].1)
    {
      SecondDecision(env, env2, loaded, force, translated, tree, n);
    }
    NothingPending(env2, loaded2);
  }

  /** The second run computes the same values, fallback keys, meta, glossary and memory. */
  lemma SecondPlan(
    env: Env, env2: Env, loaded: Loaded, force: bool, force2: bool, translated: map<string, string>, tree: Entries)
    requires Sensible(env) && Translates(env, loaded, translated) && RoundTrippable(env.source)
    requires env2 == env.(now := env2.now) && Rebuilds(PlanFor(env, loaded, force, translated).values, tree)
    ensures var plan := PlanFor(env, loaded, force, translated);
      && Pending(env2, Reloaded(plan, tree), env.source) == []
      && PlanFor(env2, Reloaded(plan, tree), force2, map[]) == plan
  {
    hide NoDuplicates, StrictOrder, Faithful, RoundTrippable, InjectiveCacheKey, Rebuilds;
    hide Settle, NextMeta, FallbackKeys, Pending, ToSorted;
    var plan := PlanFor(env, loaded, force, translated);
    var again := PlanFor(env2, Reloaded(plan, tree), force2, map[]);
    SecondSettles(env, env2, loaded, force, force2, translated, tree);
    FallbacksAgain(env, env2, loaded, Reloaded(plan, tree), force, force2, translated);
    MetaAgain(env, env2, loaded, plan, tree, ToSorted(env.leq, FallbackKeys(env, loaded, force, translated)));
    assert again.values == plan.values;
  }

  /** Unchanged content keeps its generation time. */
  lemma MetaAgain(env: Env, env2: Env, loaded: Loaded, plan: Plan, tree: Entries, keys: seq<string>)
    requires env2 == env.(now := env2.now) && plan.meta == NextMeta(env, loaded, keys)
    ensures NextMeta(env2, Reloaded(plan, tree), keys) == plan.meta
  {
  }

  lemma FallbacksAgain(
    env: Env, env2: Env, loaded: Loaded, loaded2: Loaded, force: bool, force2: bool, translated: map<string, string>)
    requires NoDuplicates(KeysOf(env.source)) && StrictOrder(env.leq) && env2 == env.(now := env2.now)
    requires SettlesAlike(env, env2, loaded, loaded2, force, force2, translated)
    ensures ToSorted(env.leq, FallbackKeys(env2, loaded2, force2, map[]))
         == ToSorted(env.leq, FallbackKeys(env, loaded, force, translated))
  {
    hide NoDuplicates, Settle;
    var a, b := FallbackKeys(env2, loaded2, force2, map[]), FallbackKeys(env, loaded, force, translated);
    FallbackKeysExact(env, loaded, force, translated);
    FallbackKeysExact(env2, loaded2, force2, map[]);
    forall k ensures k in a <==> k in b {
      assert k in a <==> IsFallback(env2, loaded2, force2, map[], k);
      assert k in b <==> IsFallback(env, loaded, force, translated, k);
    }
    SameElementsMultiset(a, b);
    ToSortedSorts(env.leq, a);
    ToSortedSorts(env.leq, b);
    SortedUnique(env.leq, ToSorted(env.leq, a), ToSorted(env.leq, b));
  }

  /**
   * The fixpoint: whatever the files were, after one `sync --write` a later run with the same
   * provider, forced or not, checking or writing, has nothing to translate and nothing to change.
   */
  lemma SyncIsFixpoint(
    env: Env, later: Env, files: Files, options: Options, options2: Options, translated: map<string, string>)
    requires Sensible(env) && RoundTrippable(env.source)
    requires Translates(env, Load(env, files), translated)
    requires options.write && !options.checkOnly
    requires later == env.(now := later.now)
    ensures var first := Sync(env, files, options, translated);
      var second := Sync(later, first.files, options2, map[]);
      && Pending(later, Load(later, first.files), later.source) == []
      && !second.outcome.changed && second.files == first.files
      && second.outcome.fallbackCount == first.outcome.fallbackCount
  {
    hide NoDuplicates, StrictOrder, RoundTrippable, InjectiveCacheKey, PlanFor, Pending, Rebuilds, Writable;
    var loaded := Load(env, files);
    var plan := PlanFor(env, loaded, options.force, translated);
    LoadedStorable(env, files);
    PlanWritable(env, loaded, options.force, translated);
    WriteThenLoad(env, later, files, options, plan);
    var tree :| Rebuilds(plan.values, tree)
      && Load(later, Finish(env, files, options, plan).files) == Reloaded(plan, tree);
    SecondPlan(env, later, loaded, options.force, options2.force, translated, tree);
    assert Expected(later, plan) == Expected(env, plan);
  }

  // ----- and only then -----

  function LiteralEntries(source: Flat): Entries {
    seq(|source|, i requires 0 <= i < |source| => (source[i].0, Leaf("x")))
  }

  lemma {:induction false} LiteralWellKeyed(source: Flat)
    requires NoDuplicates(KeysOf(source))
    ensures WellKeyed(LiteralEntries(source)) && KeysOf(LiteralEntries(source)) == KeysOf(source)
  {
    var entries := LiteralEntries(source);
    assert KeysOf(entries) == KeysOf(source);
    if source != [] {
      assert entries[1..] == LiteralEntries(source[1..]) && KeysOf(source)[1..] == KeysOf(source[1..]);
      LiteralWellKeyed(source[1..]);
      assert KeysOf(source)[0] == entries[0].0;
    }
  }

  lemma {:induction false} LiteralPaths(source: Flat)
    ensures |PathsOf(LiteralEntries(source))| == |source|
    ensures forall i :: 0 <= i < |source| ==> PathsOf(LiteralEntries(source))[i] == ([source[i].0], "x")
    decreases source
  {
    if source != [] {
      var entries := LiteralEntries(source);
      LiteralPaths(source[1..]);
      assert entries[1..] == LiteralEntries(source[1..]);
      assert InnerPaths(entries[0].1) == [([], "x")];
      assert [source[0].0] + [] == [source[0].0];
      assert Prefixed(source[0].0, InnerPaths(entries[0].1)) == [([source[0].0], "x")];
    }
  }

  lemma NotProto(key: string)
    requires "__proto__" !in Split(key)
    ensures key != "__proto__"
  {
    SplitSingle("__proto__");
  }

  lemma LiteralOrdinary(source: Flat)
    requires NoDuplicates(KeysOf(source)) && OrdinaryKeys(source)
    ensures Ordinary(LiteralEntries(source))
  {
    LiteralWellKeyed(source);
    LiteralPaths(source);
    forall e | e in PathsOf(LiteralEntries(source)) ensures "__proto__" !in e.0 {
      hide Split;
      var i :| 0 <= i < |source| && PathsOf(LiteralEntries(source))[i] == e;
      NotProto(source[i].0);
    }
  }

  /** A file that spells every dotted key out literally loads as a full translation. */
  ghost predicate AllTranslated(source: Flat, existing: Flat) {
    forall i :: 0 <= i < |source| ==> Get(existing, source[i].0) == Some("x")
  }

  lemma LiteralPathMembers(source: Flat, tree: Entries)
    requires NoDuplicates(KeysOf(source)) && WellKeyed(tree) && SameTexts(tree, LiteralEntries(source))
    ensures forall e :: e in PathsOf(tree) <==> e in PathsOf(LiteralEntries(source))
  {
    LiteralWellKeyed(source);
    forall e ensures e in PathsOf(tree) <==> e in PathsOf(LiteralEntries(source)) {
      var (path, text) := e;
      PathsAreTexts(tree, path, text);
      PathsAreTexts(LiteralEntries(source), path, text);
      assert TextAt(tree, path) == TextAt(LiteralEntries(source), path);
    }
  }

  lemma LiteralFlattens(source: Flat, tree: Entries)
    requires NoDuplicates(KeysOf(source)) && WellKeyed(tree) && SameTexts(tree, LiteralEntries(source))
    ensures AllTranslated(source, Flattened(tree))
  {
    var paths, literal := PathsOf(tree), PathsOf(LiteralEntries(source));
    LiteralPathMembers(source, tree);
    LiteralPaths(source);
    forall i | 0 <= i < |paths| ensures |paths[i].0| == 1 && paths[i].1 == "x" && Render("", paths)[i] == (paths[i].0[0], "x") {
      assert paths[i] in literal;
      var k :| 0 <= k < |source| && literal[k] == paths[i];
      FullPathIsOne(paths[i].0[0]);
    }
    PathsDistinct(tree);
    var out := Render("", paths);
    forall i, j | 0 <= i < j < |out| ensures KeysOf(out)[i] != KeysOf(out)[j] {
      assert KeysOf(paths)[i] != KeysOf(paths)[j];
      assert paths[i].0 == [paths[i].0[0]] && paths[j].0 == [paths[j].0[0]];
    }
    assert [] + out == out;
    FlattenIsRender(tree, "", []);
    forall i | 0 <= i < |source| ensures Get(out, source[i].0) == Some("x") {
      assert literal[i] in paths;
      var k :| 0 <= k < |paths| && paths[k] == literal[i];
      assert out[k] == (source[i].0, "x");
      GetAt(out, k);
    }
  }

  lemma FullPathIsOne(key: string)
    ensures FullPath("", [key]) == key
  {
  }

  lemma LiteralSettles(env: Env, loaded: Loaded, force: bool, n: nat)
    requires n < |env.source| && AllTranslated(env.source, loaded.existing)
    requires loaded.meta.None? && loaded.memory == map[]
    ensures Decide(env, loaded, env.source[n].0, env.source[n].1) == Keep("x")
    ensures Settle(env, loaded, force, map[], env.source[n].0, env.source[n].1) == Final("x", false)
  {
    assert Get(loaded.existing, env.source[n].0) == Some("x");
  }

  /** The first run over that file keeps every value, translates nothing and records no fallback. */
  lemma LiteralPlan(env: Env, loaded: Loaded, force: bool)
    requires NoDuplicates(KeysOf(env.source))
    requires loaded.meta.None? && loaded.memory == map[] && AllTranslated(env.source, loaded.existing)
    ensures KeysOf(PlanFor(env, loaded, force, map[]).values) == KeysOf(env.source)
    ensures PlanFor(env, loaded, force, map[]).meta.fallbackKeys == []
    ensures PlanFor(env, loaded, force, map[]).memory == map[]
    ensures Translates(env, loaded, map[])
  {
    hide NoDuplicates, Settle, FallbackKeys, Pending, Remember, AllTranslated, Decide;
    forall n | 0 <= n < |env.source|
      ensures Decide(env, loaded, env.source[n].0, env.source[n].1).Keep?
      ensures Settle(env, loaded, force, map[], env.source[n].0, env.source[n].1) == Final("x", false)
    {
      LiteralSettles(env, loaded, force, n);
    }
    EveryKeyOnce(env, loaded, force, map[]);
    var keys := PlanFor(env, loaded, force, map[]).meta.fallbackKeys;
    assert |keys| > 0 ==> IsFallback(env, loaded, force, map[], keys[0]);
    NothingPending(env, loaded);
    NothingTranslated(env, map[], []);
  }

  /** A key the reloaded file has lost. */
  lemma LostKey(source: Flat, values: Flat, tree: Entries) returns (i: nat)
    requires KeysOf(values) == KeysOf(source) && !RoundTrippable(source) && Rebuilds(values, tree)
    ensures i < |source| && Get(Flattened(tree), source[i].0) == None
  {
    RoundTrippableKeys(values, source);
    hide RoundTrippable, Rebuilds;
    SomeKeyLost(values, tree);
    i :| 0 <= i < |values| && values[i].0 !in KeysOf(Flattened(tree));
    assert KeysOf(values)[i] == values[i].0 && KeysOf(source)[i] == source[i].0;
    GetPlace(Flattened(tree), source[i].0);
  }

  /** Without a provider the second run falls back to the source text for the lost key. */
  lemma LostKeyFallsBack(env: Env, loaded: Loaded, force: bool, i: nat)
    requires NoDuplicates(KeysOf(env.source)) && i < |env.source|
    requires loaded.memory == map[] && Get(loaded.existing, env.source[i].0) == None
    ensures PlanFor(env, loaded, force, map[]).meta.fallbackKeys != []
  {
    var (key, text) := env.source[i];
    assert Settle(env, loaded, force, map[], key, text).fallback;
    EveryKeyOnce(env, loaded, force, map[]);
    hide PlanFor, Settle, Pending, FallbackKeys;
    assert IsFallback(env, loaded, force, map[], key);
  }

  /** With a provider it translates the lost key, which the memory did not hold before. */
  lemma LostKeyRemembered(env: Env, loaded: Loaded, translated: map<string, string>, i: nat)
    requires NoDuplicates(KeysOf(env.source)) && i < |env.source|
    requires loaded.memory == map[] && Get(loaded.existing, env.source[i].0) == None
    requires env.allowTranslate && Translates(env, loaded, translated)
    ensures Remember(env, loaded.memory, translated, Pending(env, loaded, env.source)) != map[]
  {
    var (key, text) := env.source[i];
    var pending := Pending(env, loaded, env.source);
    assert Decide(env, loaded, key, text) == Translate;
    hide NoDuplicates, Decide, Pending, Trim;
    PendingItems(env, loaded);
    assert Queued(env, loaded, |env.source|, ItemFor(env, key, text));
    assert ItemFor(env, key, text) in pending;
    LastRemembered(env, loaded.memory, translated, pending);
  }

  lemma LastRemembered(
    env: Env, memory: TranslationMemory, translated: map<string, string>, items: seq<TranslationBatches.Item>)
    requires items != [] && Complete(translated, items)
    ensures Remember(env, memory, translated, items) != map[]
  {
    var last := items[|items|-1];
    assert last in items && last.key in TranslationRetry.KeysOf(items);
    TrimEmpty();
    hide Trim;
    assert last.cacheKey in Remember(env, memory, translated, items);
  }

  /** Either way the second run's meta or memory differs from what the first one wrote. */
  lemma LostKeyChanges(env: Env, plan: Plan, tree: Entries, translated: map<string, string>)
    requires NoDuplicates(KeysOf(env.source)) && !RoundTrippable(env.source)
    requires KeysOf(plan.values) == KeysOf(env.source) && Rebuilds(plan.values, tree)
    requires plan.memory == map[] && plan.meta.fallbackKeys == []
    requires Translates(env, Reloaded(plan, tree), translated)
    ensures var again := PlanFor(env, Reloaded(plan, tree), false, translated);
      again.meta != plan.meta || again.memory != plan.memory
  {
    hide NoDuplicates, RoundTrippable, Rebuilds, Flattened;
    var loaded := Reloaded(plan, tree);
    var i := LostKey(env.source, plan.values, tree);
    if env.allowTranslate {
      LostKeyRemembered(env, loaded, translated, i);
    } else {
      hide PlanFor;
      LostKeyFallsBack(env, loaded, false, i);
    }
  }

  lemma DifferentPlansDiffer(codec: Codec, files: Files, plan: Plan, again: Plan)
    requires Faithful(codec) && Writable(plan) && Writable(again)
    requires files.meta == Some(codec.renderMeta(plan.meta))
    requires files.memory == Some(codec.renderMemory(plan.memory)) || (files.memory == None && plan.memory == map[])
    requires again.meta != plan.meta || again.memory != plan.memory
    ensures ContentOf(files.meta) != codec.renderMeta(again.meta) || ContentOf(files.memory) != codec.renderMemory(again.memory)
  {
    hide SafeMeta, Storable, OrdinaryKeys, Ordinary, SameTexts;
    assert codec.parseMeta(codec.renderMeta(again.meta)) == again.meta;
    assert codec.parseMeta(codec.renderMeta(plan.meta)) == plan.meta;
    assert codec.parseMemory(codec.renderMemory(again.memory)) == again.memory;
    assert codec.parseMemory(codec.renderMemory(plan.memory)) == plan.memory;
  }

  lemma FirstWrite(env: Env, files: Files, force: bool, plan: Plan)
    requires Faithful(env.codec) && Writable(plan)
    requires files.meta == None && files.memory == None
    ensures var first := Finish(env, files, Options(false, force, true), plan).files;
      && first.meta == Some(env.codec.renderMeta(plan.meta))
      && (first.memory == Some(env.codec.renderMemory(plan.memory)) || (first.memory == None && plan.memory == map[]))
  {
    hide Storable, OrdinaryKeys, Ordinary, SameTexts;
    assert env.codec.renderMeta(plan.meta) != "";
    assert env.codec.parseMemory(env.codec.renderMemory(plan.memory)) == plan.memory;
  }

  /**
   * Without round-trippable source keys there are files for which the next run changes something
   * again, with a provider whatever it answers, and without one.
   */
  lemma SyncDriftsOtherwise(env: Env, force: bool)
    requires Sensible(env) && !RoundTrippable(env.source)
    ensures exists files ::
      var first := Sync(env, files, Options(false, force, true), map[]);
      && Translates(env, Load(env, files), map[])
      && forall translated | Translates(env, Load(env, first.files), translated) ::
           Sync(env, first.files, Options(true, false, false), translated).outcome.changed
  {
    hide NoDuplicates, StrictOrder, RoundTrippable, InjectiveCacheKey, NonEmptyCacheKeys, PlanFor, Translates;
    hide Ordinary, Rebuilds, Writable, OrdinaryKeys, AllTranslated, Flattened, Finish;
    var literal := env.codec.renderLocale(LiteralEntries(env.source));
    var files := Files(Some(literal), None, None, None);
    var options := Options(false, force, true);
    LiteralOrdinary(env.source);
    LiteralFlattens(env.source, env.codec.parseLocale(literal));
    var loaded := Load(env, files);
    var plan := PlanFor(env, loaded, force, map[]);
    LiteralPlan(env, loaded, force);
    LoadedStorable(env, files);
    PlanWritable(env, loaded, force, map[]);
    WriteThenLoad(env, env, files, options, plan);
    var first := Sync(env, files, options, map[]).files;
    var tree :| Rebuilds(plan.values, tree) && Load(env, first) == Reloaded(plan, tree);
    FirstWrite(env, files, force, plan);
    forall translated | Translates(env, Load(env, first), translated)
      ensures Sync(env, first, Options(true, false, false), translated).outcome.changed
    {
      var again := PlanFor(env, Load(env, first), false, translated);
      LostKeyChanges(env, plan, tree, translated);
      LoadedStorable(env, first);
      PlanWritable(env, Load(env, first), false, translated);
      DifferentPlansDiffer(env.codec, first, plan, again);
      ChangedIfDifferent(env, first, again);
    }
  }

  lemma ChangedIfDifferent(env: Env, files: Files, plan: Plan)
    requires ContentOf(files.meta) != env.codec.renderMeta(plan.meta)
             || ContentOf(files.memory) != env.codec.renderMemory(plan.memory)
    ensures Finish(env, files, Options(true, false, false), plan).outcome.changed
  {
  }
}
