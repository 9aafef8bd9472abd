/** What `syncLocale` writes for every key, told from the files it has read. */
module LocaleSyncValues {
  import opened Results
  import opened Sequences
  import opened OrderedMaps
  import opened TranslationTree
  import opened LocaleSync
  import opened LocaleSyncRun
  import TranslationBatches

  // ----- the files before the run -----

  ghost function MemoryIn(env: Env, files: Files): TranslationMemory {
    match files.memory
    case Some(content) => env.codec.parseMemory(content)
    case None => map[]
  }

  ghost function TextsIn(env: Env, files: Files): Flat {
    match files.locale
    case Some(content) => Flattened(env.codec.parseLocale(content))
    case None => []
  }

  ghost function MetaIn(env: Env, files: Files): Option<Meta> {
    match files.meta
    case Some(content) => Some(env.codec.parseMeta(content))
    case None => None
  }

  ghost function GlossaryIn(env: Env, files: Files): Glossary {
    match files.glossary
    case Some(content) => env.codec.parseGlossary(content)
    case None => Glossary([])
  }

  /** Recorded as a fallback by an earlier run. */
  ghost predicate Marked(env: Env, files: Files, key: string) {
    MetaIn(env, files).Some? && key in MetaIn(env, files).value.fallbackKeys
  }

  // ----- one key -----

  ghost predicate Present(env: Env, files: Files, key: string) {
    Get(TextsIn(env, files), key).Some?
  }

  ghost predicate Cached(env: Env, files: Files, key: string, text: string) {
    env.cacheKey(key, text) in MemoryIn(env, files)
  }

  /** With a provider, fallbacks are tried again; everything else known stays. */
  ghost predicate Reused(env: Env, files: Files, key: string, text: string) {
    (Cached(env, files, key, text) || Present(env, files, key)) && !(env.allowTranslate && Marked(env, files, key))
  }

  ghost function ValueOf(
    env: Env, files: Files, force: bool, translated: map<string, string>, key: string, text: string): string
  {
    var existing := Get(TextsIn(env, files), key);
    if Reused(env, files, key, text) then
      if Cached(env, files, key, text) then MemoryIn(env, files)[env.cacheKey(key, text)].translated else existing.value
    else if key in translated then translated[key]
    else if existing.Some? && !force then existing.value
    else text
  }

  ghost predicate EndsAsFallback(
    env: Env, files: Files, force: bool, translated: map<string, string>, key: string, text: string)
  {
    if Reused(env, files, key, text) then Marked(env, files, key)
    else if key in translated then false
    else if Present(env, files, key) && !force then Marked(env, files, key)
    else true
  }

  lemma SettleSpelledOut(
    env: Env, files: Files, force: bool, translated: map<string, string>, key: string, text: string)
    ensures Settle(env, Load(env, files), force, translated, key, text)
         == Final(ValueOf(env, files, force, translated, key, text),
                  EndsAsFallback(env, files, force, translated, key, text))
    ensures Decide(env, Load(env, files), key, text).Keep? <==> Reused(env, files, key, text)
    ensures ItemFor(env, key, text) == TranslationBatches.Item(env.cacheKey(key, text), key, text, env.textHash(text))
  {
    hide Get, Flattened;
  }

  // ----- what is queued -----

  ghost predicate QueuedFrom(env: Env, files: Files, item: TranslationBatches.Item, i: nat)
    requires i < |env.source|
  {
    var (key, text) := env.source[i];
    !Reused(env, files, key, text)
    && item == TranslationBatches.Item(env.cacheKey(key, text), key, text, env.textHash(text))
  }

  /** Every source entry that is not reused is queued with its cache key and text hash, in source order. */
  lemma PendingSpelledOut(env: Env, files: Files)
    requires NoDuplicates(KeysOf(env.source))
    ensures var pending := Pending(env, Load(env, files), env.source);
      && NoDuplicates(ItemKeys(pending))
      && (forall item :: item in pending <==> exists i :: 0 <= i < |env.source| && QueuedFrom(env, files, item, i))
      && forall p, q :: 0 <= p < q < |pending| ==>
           OrderedAt(env.source, |env.source|, pending[p].key, pending[q].key)
  {
    hide NoDuplicates, Pending, Decide, Reused, OrderedAt;
    var loaded, n := Load(env, files), |env.source|;
    var pending := Pending(env, loaded, env.source);
    PendingItems(env, loaded);
    forall item ensures item in pending <==> exists i :: 0 <= i < n && QueuedFrom(env, files, item, i) {
      QueuedSpelledOut(env, files, item);
    }
    assert env.source[..n] == env.source;
    PendingInOrder(env, loaded, n);
  }

  lemma QueuedSpelledOut(env: Env, files: Files, item: TranslationBatches.Item)
    ensures Queued(env, Load(env, files), |env.source|, item)
            <==> exists i :: 0 <= i < |env.source| && QueuedFrom(env, files, item, i)
  {
    hide Load, Reused, Settle, Decide, ItemFor;
    forall i | 0 <= i < |env.source| {
      SettleSpelledOut(env, files, false, map[], env.source[i].0, env.source[i].1);
    }
    if Queued(env, Load(env, files), |env.source|, item) {
      var i :| 0 <= i < |env.source| && item == ItemFor(env, env.source[i].0, env.source[i].1)
               && Decide(env, Load(env, files), item.key, item.text).Translate?;
      assert QueuedFrom(env, files, item, i);
    }
  }

  /** Of the first n source entries, those with key `a` come before those with key `b`. */
  ghost predicate OrderedAt(source: Flat, n: nat, a: string, b: string)
    requires n <= |source|
  {
    forall i, j :: 0 <= i < |source| && 0 <= j < |source| && source[i].0 == a && source[j].0 == b ==> i < j < n
  }

  lemma {:induction false} PendingInOrder(env: Env, loaded: Loaded, n: nat)
    requires NoDuplicates(KeysOf(env.source)) && n <= |env.source|
    ensures var pending := Pending(env, loaded, env.source[..n]);
      forall p, q :: 0 <= p < q < |pending| ==> OrderedAt(env.source, n, pending[p].key, pending[q].key)
  {
    hide NoDuplicates, Pending, Decide, Queued, ItemFor, OrderedAt;
    if n == 0 {
      NoPending(env, loaded);
    } else {
      PendingInOrder(env, loaded, n - 1);
      PendingSnoc(env, loaded, n - 1);
      PendingExact(env, loaded, n - 1);
      var before, pending := Pending(env, loaded, env.source[..n-1]), Pending(env, loaded, env.source[..n]);
      forall p, q | 0 <= p < q < |pending| ensures OrderedAt(env.source, n, pending[p].key, pending[q].key) {
        assert pending[p] == before[p] && before[p] in before;
        if q < |before| {
          assert pending[q] == before[q];
          assert OrderedAt(env.source, n - 1, before[p].key, before[q].key);
          OrderedLater(env.source, n - 1, before[p].key, before[q].key);
        } else {
          assert pending[q] == ItemFor(env, env.source[n-1].0, env.source[n-1].1);
          LastComesLast(env, loaded, n - 1, before[p]);
        }
      }
    }
  }

  lemma NoPending(env: Env, loaded: Loaded)
    ensures Pending(env, loaded, env.source[..0]) == []
  {
  }

  lemma OrderedLater(source: Flat, n: nat, a: string, b: string)
    requires n < |source| && OrderedAt(source, n, a, b)
    ensures OrderedAt(source, n + 1, a, b)
  {
  }

  lemma LastComesLast(env: Env, loaded: Loaded, n: nat, item: TranslationBatches.Item)
    requires NoDuplicates(KeysOf(env.source)) && n < |env.source| && Queued(env, loaded, n, item)
    ensures OrderedAt(env.source, n + 1, item.key, ItemFor(env, env.source[n].0, env.source[n].1).key)
  {
    hide NoDuplicates, Decide;
    var k :| 0 <= k < n && item == ItemFor(env, env.source[k].0, env.source[k].1)
             && Decide(env, loaded, item.key, item.text).Translate?;
    forall i | 0 <= i < |env.source| ensures i != k ==> env.source[i].0 != env.source[k].0
                                      ensures i != n ==> env.source[i].0 != env.source[n].0 {
      DistinctKeys(env.source, i, k);
      DistinctKeys(env.source, i, n);
    }
  }

  // ----- what the memory holds -----

  /** Source entry i has a new translation to be remembered. */
  ghost predicate Learnt(env: Env, files: Files, translated: map<string, string>, i: nat)
    requires i < |env.source|
  {
    var (key, text) := env.source[i];
    !Reused(env, files, key, text) && key in translated && translated[key] != ""
  }

  /** `after` holds, for the first n entries, every new translation under its cache key, and is otherwise `before`. */
  ghost predicate Learns(
    env: Env, files: Files, translated: map<string, string>, n: nat, before: TranslationMemory, after: TranslationMemory)
    requires n <= |env.source|
  {
    && (forall i :: (
          0 <= i < n && Learnt(env, files, translated, i) && LastWith(env, files, translated, n, i) ==>
            && env.cacheKey(env.source[i].0, env.source[i].1) in after
            && after[env.cacheKey(env.source[i].0, env.source[i].1)] == Memory(translated[env.source[i].0], env.now)))
    && forall c :: Unlearnt(env, files, translated, n, c) ==> (
         && (c in after <==> c in before) && (c in after ==> after[c] == before[c]))
  }

  ghost predicate LastWith(env: Env, files: Files, translated: map<string, string>, n: nat, i: nat)
    requires i < n <= |env.source|
  {
    forall m :: i < m < n && Learnt(env, files, translated, m) ==>
      env.cacheKey(env.source[m].0, env.source[m].1) != env.cacheKey(env.source[i].0, env.source[i].1)
  }

  ghost predicate Unlearnt(env: Env, files: Files, translated: map<string, string>, n: nat, c: string)
    requires n <= |env.source|
  {
    forall i :: 0 <= i < n && Learnt(env, files, translated, i) ==> env.cacheKey(env.source[i].0, env.source[i].1) != c
  }

  lemma {:induction false} RememberSpelledOut(env: Env, files: Files, translated: map<string, string>, n: nat)
    requires n <= |env.source|
    ensures var loaded := Load(env, files);
      Learns(env, files, translated, n, loaded.memory,
             Remember(env, loaded.memory, translated, Pending(env, loaded, env.source[..n])))
  {
    hide Learns, Learnt, Pending, Decide, Remember, ItemFor, Reused, Load, Settle;
    var loaded := Load(env, files);
    if n == 0 {
      NothingLearnt(env, files, translated, loaded);
    } else {
      RememberSpelledOut(env, files, translated, n - 1);
      var (key, text) := env.source[n-1];
      PendingSnoc(env, loaded, n - 1);
      LearntIff(env, files, translated, n - 1);
      var items, item := Pending(env, loaded, env.source[..n-1]), ItemFor(env, key, text);
      var middle := Remember(env, loaded.memory, translated, items);
      RememberOne(env, loaded.memory, translated, items, item);
      LearnStep(env, files, translated, n - 1, loaded.memory, middle);
      assert items + [] == items;
    }
  }

  lemma LearntIff(env: Env, files: Files, translated: map<string, string>, i: nat)
    requires i < |env.source|
    ensures var (key, text) := env.source[i];
      && (Learnt(env, files, translated, i) <==>
          Decide(env, Load(env, files), key, text).Translate? && key in translated && translated[key] != "")
      && ItemFor(env, key, text).key == key && ItemFor(env, key, text).cacheKey == env.cacheKey(key, text)
  {
    SettleSpelledOut(env, files, false, map[], env.source[i].0, env.source[i].1);
    hide Load, Decide, Settle, Reused;
  }

  lemma NothingLearnt(env: Env, files: Files, translated: map<string, string>, loaded: Loaded)
    ensures Learns(env, files, translated, 0, loaded.memory,
                   Remember(env, loaded.memory, translated, Pending(env, loaded, env.source[..0])))
  {
  }

  lemma RememberOne(
    env: Env, memory: TranslationMemory, translated: map<string, string>, items: seq<TranslationBatches.Item>,
    item: TranslationBatches.Item)
    ensures Remember(env, memory, translated, items + [item])
         == if item.key in translated && translated[item.key] != ""
            then Remember(env, memory, translated, items)[item.cacheKey := Memory(translated[item.key], env.now)]
            else Remember(env, memory, translated, items)
  {
    assert (items + [item])[..|items|] == items;
  }

  lemma LearnStep(
    env: Env, files: Files, translated: map<string, string>, n: nat, before: TranslationMemory, middle: TranslationMemory)
    requires n < |env.source| && Learns(env, files, translated, n, before, middle)
    ensures var (key, text) := env.source[n];
      Learns(env, files, translated, n + 1, before,
             if Learnt(env, files, translated, n) && key in translated
             then middle[env.cacheKey(key, text) := Memory(translated[key], env.now)] else middle)
  {
    hide Reused, Learnt, LastWith, Unlearnt;
    var (key, text) := env.source[n];
    var c := env.cacheKey(key, text);
    var after := if Learnt(env, files, translated, n) && key in translated then middle[c := Memory(translated[key], env.now)] else middle;
    forall i | 0 <= i <= n && Learnt(env, files, translated, i) ensures env.source[i].0 in translated {
      LearntKey(env, files, translated, i);
    }
    forall i | 0 <= i < n && Learnt(env, files, translated, i) && LastWith(env, files, translated, n + 1, i)
      ensures env.cacheKey(env.source[i].0, env.source[i].1) in after
      ensures after[env.cacheKey(env.source[i].0, env.source[i].1)] == Memory(translated[env.source[i].0], env.now)
    {
      LastEarlier(env, files, translated, n, i);
    }
    forall d | Unlearnt(env, files, translated, n + 1, d)
      ensures (d in after <==> d in before) && (d in after ==> after[d] == before[d])
    {
      UnlearntEarlier(env, files, translated, n, d);
    }
  }

  lemma LearntKey(env: Env, files: Files, translated: map<string, string>, i: nat)
    requires i < |env.source| && Learnt(env, files, translated, i)
    ensures env.source[i].0 in translated
  {
  }

  lemma LastEarlier(env: Env, files: Files, translated: map<string, string>, n: nat, i: nat)
    requires i < n < |env.source| && LastWith(env, files, translated, n + 1, i)
    ensures LastWith(env, files, translated, n, i)
    ensures Learnt(env, files, translated, n) ==>
              env.cacheKey(env.source[n].0, env.source[n].1) != env.cacheKey(env.source[i].0, env.source[i].1)
  {
    hide Learnt;
  }

  lemma UnlearntEarlier(env: Env, files: Files, translated: map<string, string>, n: nat, c: string)
    requires n < |env.source| && Unlearnt(env, files, translated, n + 1, c)
    ensures Unlearnt(env, files, translated, n, c)
    ensures Learnt(env, files, translated, n) ==> env.cacheKey(env.source[n].0, env.source[n].1) != c
  {
    hide Learnt;
  }

  // ----- the metadata -----

  ghost predicate SomeFallback(
    env: Env, files: Files, force: bool, translated: map<string, string>, key: string)
  {
    exists i :: 0 <= i < |env.source| && env.source[i].0 == key
                && EndsAsFallback(env, files, force, translated, key, env.source[i].1)
  }

  /** The fallback keys: exactly those keys, each once, in locale order. */
  ghost predicate ListsFallbacks(
    env: Env, files: Files, force: bool, translated: map<string, string>, keys: seq<string>)
  {
    && NoDuplicates(keys)
    && (forall k :: k in keys <==> SomeFallback(env, files, force, translated, k))
    && (TotalPreorder(env.leq) ==> SortedBy(env.leq, keys))
  }

  /** The record of a run with these fallback keys; it keeps the old time exactly if nothing else in it has changed. */
  ghost predicate Records(env: Env, files: Files, keys: seq<string>, meta: Meta) {
    var previous := MetaIn(env, files);
    && meta.fallbackKeys == keys && meta.locale == env.locale && meta.sourceHash == env.sourceHash
    && meta.totalKeys == |env.source| && meta.translatedKeys == |env.source| - |keys| && meta.workflow == 1
    && meta.provider == (if env.allowTranslate then env.provider else if previous.Some? then previous.value.provider else "")
    && meta.model == (if env.allowTranslate then env.model else if previous.Some? then previous.value.model else "")
    && if previous.Some? && previous.value.(generatedAt := "") == meta.(generatedAt := "")
       then meta == previous.value else meta.generatedAt == env.now
  }

  lemma MetaSpelledOut(env: Env, files: Files, keys: seq<string>)
    ensures Records(env, files, keys, NextMeta(env, Load(env, files), keys))
  {
    hide Flattened;
  }

  lemma FallbacksSpelledOut(env: Env, files: Files, force: bool, translated: map<string, string>)
    requires NoDuplicates(KeysOf(env.source))
    ensures ListsFallbacks(env, files, force, translated,
              ToSorted(env.leq, FallbackKeys(env, Load(env, files), force, translated)))
  {
    hide NoDuplicates, Settle, Load, EndsAsFallback, FallbackKeys, ToSorted, SortedBy;
    var keys := FallbackKeys(env, Load(env, files), force, translated);
    var sorted := ToSorted(env.leq, keys);
    FallbackKeysExact(env, Load(env, files), force, translated);
    PermutationKeepsNoDuplicates(sorted, keys);
    SamePermutationMembers(sorted, keys);
    if TotalPreorder(env.leq) { ToSortedSorts(env.leq, keys); }
    forall k ensures k in sorted <==> SomeFallback(env, files, force, translated, k) {
      forall i | 0 <= i < |env.source| {
        SettleSpelledOut(env, files, force, translated, k, env.source[i].1);
      }
    }
  }

  // ----- the whole run -----

  ghost predicate GivesValues(env: Env, files: Files, force: bool, translated: map<string, string>, values: Flat) {
    && |values| == |env.source|
    && forall i :: 0 <= i < |values| ==>
         values[i] == (env.source[i].0, ValueOf(env, files, force, translated, env.source[i].0, env.source[i].1))
  }

  lemma ValuesSpelledOut(env: Env, files: Files, force: bool, translated: map<string, string>)
    ensures GivesValues(env, files, force, translated, NextFlat(env, Load(env, files), force, translated, env.source))
  {
    hide Settle, Load, ValueOf, EndsAsFallback;
    forall i | 0 <= i < |env.source| {
      SettleSpelledOut(env, files, force, translated, env.source[i].0, env.source[i].1);
    }
  }

  /** A missing file reads as the empty text. */
  ghost predicate Holds(file: Option<string>, content: string) {
    match file
    case Some(found) => found == content
    case None => content == ""
  }

  /**
   * One run over four files, from what it has read: it says that something changed exactly if one of the files does
   * not hold its new content, and writes all of them exactly then, when told to write and not only to check. An empty
   * memory is not written where there is none.
   */
  ghost predicate Writes(
    env: Env, files: Files, options: Options, values: Flat, meta: Meta, glossary: Glossary, memory: TranslationMemory,
    r: SyncResult)
  {
    var locale, record := env.codec.renderLocale(Rebuilt(values)), env.codec.renderMeta(meta);
    var terms, remembered := env.codec.renderGlossary(glossary), env.codec.renderMemory(memory);
    && (r.outcome.changed <==>
        !(Holds(files.locale, locale) && Holds(files.meta, record)
          && Holds(files.glossary, terms) && Holds(files.memory, remembered)))
    && (r.outcome.wrote <==> r.outcome.changed && options.write && !options.checkOnly)
    && r.outcome.fallbackCount == |meta.fallbackKeys|
    && if r.outcome.wrote
       then r.files == Files(Some(locale), Some(record), Some(terms),
                             if remembered == "" && files.memory == None then None else Some(remembered))
       else r.files == files
  }

  lemma FinishSpelledOut(env: Env, files: Files, options: Options, plan: Plan)
    ensures Writes(env, files, options, plan.values, plan.meta, plan.glossary, plan.memory, Finish(env, files, options, plan))
  {
    hide RebuildInto;
  }

  /**
   * The result of a run, for every environment, every set of files and every translation: each key has its value, the
   * record lists the fallbacks, the memory has learnt the new translations, and the files hold all that.
   */
  lemma SyncSpelledOut(env: Env, files: Files, options: Options, translated: map<string, string>)
    returns (values: Flat, meta: Meta, glossary: Glossary, memory: TranslationMemory)
    requires NoDuplicates(KeysOf(env.source))
    ensures GivesValues(env, files, options.force, translated, values)
    ensures Records(env, files, meta.fallbackKeys, meta)
    ensures ListsFallbacks(env, files, options.force, translated, meta.fallbackKeys)
    ensures Learns(env, files, translated, |env.source|, MemoryIn(env, files), memory)
    ensures glossary == if GlossaryIn(env, files).terms == [] then env.defaultGlossary else GlossaryIn(env, files)
    ensures Writes(env, files, options, values, meta, glossary, memory, Sync(env, files, options, translated))
  {
    hide NoDuplicates, GivesValues, Learns, Pending, Remember, ListsFallbacks, Records, NextMeta, NextFlat, Writes,
         FallbackKeys, Flattened, ToSorted, Finish;
    var loaded := Load(env, files);
    var keys := ToSorted(env.leq, FallbackKeys(env, loaded, options.force, translated));
    var plan := PlanFor(env, loaded, options.force, translated);
    values, meta, glossary, memory := plan.values, plan.meta, plan.glossary, plan.memory;
    ValuesSpelledOut(env, files, options.force, translated);
    MetaSpelledOut(env, files, keys);
    RecordsKeys(env, files, keys, meta);
    FallbacksSpelledOut(env, files, options.force, translated);
    assert env.source[..|env.source|] == env.source;
    RememberSpelledOut(env, files, translated, |env.source|);
    FinishSpelledOut(env, files, options, plan);
  }

  lemma RecordsKeys(env: Env, files: Files, keys: seq<string>, meta: Meta)
    requires Records(env, files, keys, meta)
    ensures meta.fallbackKeys == keys
  {
  }
}
