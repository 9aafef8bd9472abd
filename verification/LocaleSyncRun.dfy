/** The loops of `syncLocale`, proved against the decisions they have to make. */
module LocaleSyncRun {
  import opened Results
  import opened Sequences
  import opened OrderedMaps
  import opened Text
  import opened TranslationTree
  import opened LocaleSync
  import TranslationBatches
  import TranslationRetry
  import TranslationRuns

  // ----- the loops -----

  /** What `nextFlat` holds after the first loop has seen `source`. */
  ghost predicate Kept(env: Env, loaded: Loaded, source: Flat, nextFlat: map<string, string>) {
    && (forall k :: k in nextFlat ==> k in KeysOf(source))
    && forall i :: 0 <= i < |source| ==> KeptEntry(Decide(env, loaded, source[i].0, source[i].1), nextFlat, source[i].0)
  }

  ghost predicate KeptEntry(d: Decision, nextFlat: map<string, string>, key: string) {
    if d.Keep? then key in nextFlat && nextFlat[key] == d.value else key !in nextFlat
  }

  ghost predicate SelectedUpTo(
    env: Env, loaded: Loaded, source: Flat, nextFlat: map<string, string>,
    pending: seq<TranslationBatches.Item>, fallbackKeys: seq<string>)
  {
    && pending == Pending(env, loaded, source)
    && fallbackKeys == KeptFallbacks(env, loaded, source)
    && Kept(env, loaded, source, nextFlat)
  }

  lemma FreshKey(source: Flat, n: nat)
    requires NoDuplicates(KeysOf(source)) && n < |source|
    ensures source[n].0 !in KeysOf(source[..n])
    ensures forall i :: 0 <= i < n ==> source[i].0 != source[n].0
  {
    forall i | 0 <= i < n ensures source[i].0 != source[n].0 {
      assert KeysOf(source)[i] != KeysOf(source)[n];
    }
  }

  lemma SelectStep(
    env: Env, loaded: Loaded, n: nat, nextFlat: map<string, string>,
    pending: seq<TranslationBatches.Item>, fallbackKeys: seq<string>)
    requires NoDuplicates(KeysOf(env.source)) && n < |env.source|
    requires SelectedUpTo(env, loaded, env.source[..n], nextFlat, pending, fallbackKeys)
    ensures var (key, text) := env.source[n];
      var d := Decide(env, loaded, key, text);
      SelectedUpTo(env, loaded, env.source[..n + 1],
        if d.Keep? then nextFlat[key := d.value] else nextFlat,
        if d.Keep? then pending else pending + [ItemFor(env, key, text)],
        if d.Keep? && Refresh(loaded, key) then fallbackKeys + [key] else fallbackKeys)
  {
    hide Decide, Refresh, NoDuplicates;
    var (key, text) := env.source[n];
    var before, after := env.source[..n], env.source[..n + 1];
    assert after[..n] == before && after[n] == (key, text);
    FreshKey(env.source, n);
    assert KeysOf(after) == KeysOf(before) + [key];
    var d := Decide(env, loaded, key, text);
    var next := if d.Keep? then nextFlat[key := d.value] else nextFlat;
    forall i | 0 <= i < |after| ensures KeptEntry(Decide(env, loaded, after[i].0, after[i].1), next, after[i].0) {
      if i < n {
        assert after[i] == before[i];
        assert KeptEntry(Decide(env, loaded, before[i].0, before[i].1), nextFlat, before[i].0);
      }
    }
  }

  /** The first loop: reuse the memory or the existing file, queue the rest. */
  method SelectKeys(env: Env, loaded: Loaded)
    returns (nextFlat: map<string, string>, pending: seq<TranslationBatches.Item>, fallbackKeys: seq<string>)
    requires NoDuplicates(KeysOf(env.source))
    ensures SelectedUpTo(env, loaded, env.source, nextFlat, pending, fallbackKeys)
  {
    hide SelectedUpTo, NoDuplicates;
    nextFlat, pending, fallbackKeys := map[], [], [];
    NothingSelected(env, loaded);
    for n := 0 to |env.source|
      invariant SelectedUpTo(env, loaded, env.source[..n], nextFlat, pending, fallbackKeys)
    {
      var (key, text) := env.source[n];
      var cacheKey := env.cacheKey(key, text);
      var existing: Option<string> := Get(loaded.existing, key);
      var shouldRefreshFallback := key in PreviousFallbacks(loaded);
      SelectStep(env, loaded, n, nextFlat, pending, fallbackKeys);
      if cacheKey in loaded.memory && !(env.allowTranslate && shouldRefreshFallback) {
        nextFlat := nextFlat[key := loaded.memory[cacheKey].translated];
        if shouldRefreshFallback { fallbackKeys := fallbackKeys + [key]; }
      } else if existing.Some? && !(env.allowTranslate && shouldRefreshFallback) {
        nextFlat := nextFlat[key := existing.value];
        if shouldRefreshFallback { fallbackKeys := fallbackKeys + [key]; }
      } else {
        pending := pending + [ItemFor(env, key, text)];
      }
    }
    assert env.source[..|env.source|] == env.source;
  }

  lemma NothingSelected(env: Env, loaded: Loaded)
    ensures SelectedUpTo(env, loaded, env.source[..0], map[], [], [])
  {
  }

  // ----- translation of the pending keys -----

  ghost function ItemKeys(items: seq<TranslationBatches.Item>): seq<string> {
    seq(|items|, i requires 0 <= i < |items| => items[i].key)
  }

  /** A complete translation: exactly the pending keys, no value blank. */
  ghost predicate Complete(translated: map<string, string>, items: seq<TranslationBatches.Item>) {
    TranslationRetry.ValidTranslation(translated, items)
  }

  lemma {:induction false} RememberFrame(
    env: Env, memory: TranslationMemory, a: map<string, string>, b: map<string, string>, items: seq<TranslationBatches.Item>)
    requires forall i :: i in items ==> i.key in a && i.key in b && a[i.key] == b[i.key]
    ensures Remember(env, memory, a, items) == Remember(env, memory, b, items)
  {
    if items != [] {
      assert items[|items|-1] in items;
      RememberFrame(env, memory, a, b, items[..|items|-1]);
    }
  }

  /** The items stored so far: their texts, and the memory and values they went into. */
  ghost predicate Stored(
    env: Env, memory0: TranslationMemory, flat0: map<string, string>, seen: seq<TranslationBatches.Item>,
    translated: map<string, string>, nextFlat: map<string, string>, memory: TranslationMemory)
  {
    && Complete(translated, seen)
    && nextFlat == flat0 + translated
    && memory == Remember(env, memory0, translated, seen)
  }

  lemma CompleteSnoc(translated: map<string, string>, seen: seq<TranslationBatches.Item>, item: TranslationBatches.Item, value: string)
    requires Complete(translated, seen) && Trim(value) != ""
    ensures Complete(translated[item.key := value], seen + [item])
  {
    hide Trim;
    TranslationRetry.KeysOfConcat(seen, [item]);
    assert item in [item];
  }

  lemma RememberSnoc(
    env: Env, memory: TranslationMemory, translated: map<string, string>, seen: seq<TranslationBatches.Item>,
    item: TranslationBatches.Item, value: string)
    requires Complete(translated, seen) && item.key !in ItemKeys(seen) && value != ""
    ensures Remember(env, memory, translated[item.key := value], seen + [item])
         == Remember(env, memory, translated, seen)[item.cacheKey := Memory(value, env.now)]
  {
    hide Trim;
    var all := seen + [item];
    assert all[..|seen|] == seen;
    forall i | i in seen ensures i.key != item.key && i.key in translated {
      var k :| 0 <= k < |seen| && seen[k] == i;
      assert ItemKeys(seen)[k] == i.key;
      assert i.key in TranslationRetry.KeysOf(seen);
    }
    RememberFrame(env, memory, translated, translated[item.key := value], seen);
  }

  lemma StoreStep(
    env: Env, memory0: TranslationMemory, flat0: map<string, string>, seen: seq<TranslationBatches.Item>,
    translated: map<string, string>, nextFlat: map<string, string>, memory: TranslationMemory,
    item: TranslationBatches.Item, value: string)
    requires Stored(env, memory0, flat0, seen, translated, nextFlat, memory)
    requires item.key !in ItemKeys(seen) && Trim(value) != ""
    ensures Stored(env, memory0, flat0, seen + [item], translated[item.key := value],
              nextFlat[item.key := value], memory[item.cacheKey := Memory(value, env.now)])
  {
    assert value != "" by { TrimEmpty(); }
    hide Trim, Complete, Remember;
    CompleteSnoc(translated, seen, item, value);
    RememberSnoc(env, memory0, translated, seen, item, value);
    MapAddUpdate(flat0, translated, item.key, value);
  }

  lemma MapAddUpdate<K, V>(a: map<K, V>, b: map<K, V>, key: K, value: V)
    ensures a + b[key := value] == (a + b)[key := value]
  {
  }

  lemma TrimEmpty()
    ensures Trim("") == ""
  {
  }

  lemma SeenKey(pending: seq<TranslationBatches.Item>, seen: seq<TranslationBatches.Item>, item: TranslationBatches.Item)
    requires NoDuplicates(ItemKeys(pending)) && seen + [item] <= pending
    ensures item.key !in ItemKeys(seen)
  {
    forall k | 0 <= k < |seen| ensures ItemKeys(seen)[k] != item.key {
      assert pending[k] == (seen + [item])[k] && pending[|seen|] == (seen + [item])[|seen|];
      assert ItemKeys(pending)[k] != ItemKeys(pending)[|seen|];
    }
  }

  /** `after` is `before` with the texts of the reply for these keys. */
  ghost predicate Overlaid(after: map<string, string>, before: map<string, string>, reply: map<string, string>, keys: set<string>) {
    && after.Keys == before.Keys + keys
    && forall k :: k in after ==> (if k in keys then k in reply && after[k] == reply[k] else k in before && after[k] == before[k])
  }

  lemma OverlayStep(
    after: map<string, string>, before: map<string, string>, reply: map<string, string>,
    seen: seq<TranslationBatches.Item>, item: TranslationBatches.Item)
    requires Overlaid(after, before, reply, TranslationRetry.KeysOf(seen)) && item.key in reply
    ensures Overlaid(after[item.key := reply[item.key]], before, reply, TranslationRetry.KeysOf(seen + [item]))
  {
    TranslationRetry.KeysOfConcat(seen, [item]);
    assert TranslationRetry.KeysOf([item]) == {item.key} by { assert item in [item]; }
  }

  lemma OverlayWhole(after: map<string, string>, before: map<string, string>, reply: map<string, string>)
    requires Overlaid(after, before, reply, reply.Keys)
    ensures after == before + reply
  {
  }

  /** The inner loop over one translated batch. */
  method StoreBatch(
    env: Env, batch: seq<TranslationBatches.Item>, reply: map<string, string>,
    translated0: map<string, string>, nextFlat0: map<string, string>, memory0: TranslationMemory,
    ghost pending: seq<TranslationBatches.Item>, ghost seen: seq<TranslationBatches.Item>,
    ghost flat: map<string, string>, ghost memoryBefore: TranslationMemory)
    returns (translated: map<string, string>, nextFlat: map<string, string>, memory: TranslationMemory)
    requires NoDuplicates(ItemKeys(pending)) && seen + batch <= pending
    requires Complete(reply, batch)
    requires Stored(env, memoryBefore, flat, seen, translated0, nextFlat0, memory0)
    ensures Stored(env, memoryBefore, flat, seen + batch, translated, nextFlat, memory)
    ensures translated == translated0 + reply
  {
    hide Stored, NoDuplicates, Trim, Overlaid;
    translated, nextFlat, memory := translated0, nextFlat0, memory0;
    assert seen + batch[..0] == seen;
    NothingOverlaid(translated0, reply);
    for i := 0 to |batch|
      invariant Overlaid(translated, translated0, reply, TranslationRetry.KeysOf(batch[..i]))
      invariant Stored(env, memoryBefore, flat, seen + batch[..i], translated, nextFlat, memory)
    {
      var item := batch[i];
      assert item in batch && item.key in TranslationRetry.KeysOf(batch);
      var value := reply[item.key];
      assert (seen + batch[..i]) + [item] == seen + batch[..i+1];
      assert seen + batch[..i+1] <= seen + batch;
      SeenKey(pending, seen + batch[..i], item);
      StoreStep(env, memoryBefore, flat, seen + batch[..i], translated, nextFlat, memory, item, value);
      OverlayStep(translated, translated0, reply, batch[..i], item);
      assert batch[..i] + [item] == batch[..i+1];
      translated := translated[item.key := value];
      nextFlat := nextFlat[item.key := value];
      memory := memory[item.cacheKey := Memory(value, env.now)];
    }
    assert batch[..|batch|] == batch;
    OverlayWhole(translated, translated0, reply);
  }

  lemma NothingOverlaid(before: map<string, string>, reply: map<string, string>)
    ensures Overlaid(before, before, reply, TranslationRetry.KeysOf([]))
  {
    assert TranslationRetry.KeysOf([]) == {};
  }

  /** The batches of pending items, translated in order; a batch that fails ends the run. */
  method TranslatePending(
    env: Env, client: TranslationRetry.Client, pending: seq<TranslationBatches.Item>,
    flat0: map<string, string>, memory0: TranslationMemory)
    returns (r: Result<map<string, string>, string>, nextFlat: map<string, string>, memory: TranslationMemory)
    requires NoDuplicates(ItemKeys(pending))
    modifies client
    ensures r.Ok? ==> Stored(env, memory0, flat0, pending, r.value, nextFlat, memory)
    ensures TranslationRuns.RunsTo(
              client.provider, old(client.prompts), pending, env.budget, TranslationRetry.Run(r, client.prompts))
  {
    hide Stored, NoDuplicates, TranslationBatches.Partitions, TranslationBatches.Greedy, TranslationRetry.Attempts,
         TranslationRetry.ValidTranslation, TranslationRetry.Provenance, TranslationRuns.TranslateAll, Flatten;
    nextFlat, memory := flat0, memory0;
    var translated: map<string, string> := map[];
    var batches := TranslationBatches.BuildTranslationBatches(pending, env.budget);
    ghost var at, provider := client.prompts, client.provider;
    BatchesCover(batches, pending, env.budget);
    NothingStored(env, memory0, flat0);
    NothingRun(provider, at, batches);
    for b := 0 to |batches|
      invariant Stored(env, memory0, flat0, Flatten(batches[..b]), translated, nextFlat, memory)
      invariant TranslationRuns.TranslateAll(provider, at, batches[..b]) == TranslationRetry.Run(Ok(translated), client.prompts)
    {
      TranslationRuns.TranslateAllSnoc(provider, at, batches, b);
      ghost var start := client.prompts;
      var reply := TranslationRetry.TranslateBatch(client, batches[b]);
      if reply.Err? {
        TranslationRuns.FailureEnds(provider, at, batches, b + 1);
        assert TranslationRuns.IsRun(
            provider, at, batches, pending, env.budget, TranslationRetry.Run(Err(reply.error), client.prompts));
        return Err(reply.error), nextFlat, memory;
      }
      TranslationRetry.TranslateSound(client.provider, start, batches[b], 0, "translation failed");
      FlattenPrefix(batches, b);
      translated, nextFlat, memory := StoreBatch(
        env, batches[b], reply.value, translated, nextFlat, memory, pending, Flatten(batches[..b]), flat0, memory0);
    }
    assert batches[..|batches|] == batches;
    r := Ok(translated);
    assert TranslationRuns.IsRun(provider, at, batches, pending, env.budget, TranslationRetry.Run(r, client.prompts));
  }

  lemma NothingRun(provider: TranslationRetry.Provider, at: nat, batches: seq<seq<TranslationBatches.Item>>)
    ensures TranslationRuns.TranslateAll(provider, at, batches[..0]) == TranslationRetry.Run(Ok(map[]), at)
    ensures Flatten(batches[..0]) == []
  {
  }

  lemma BatchesCover(batches: seq<seq<TranslationBatches.Item>>, pending: seq<TranslationBatches.Item>, budget: real)
    requires TranslationBatches.Partitions(batches, pending, budget)
    ensures Flatten(batches) == pending
  {
  }

  lemma NothingStored(env: Env, memory0: TranslationMemory, flat0: map<string, string>)
    ensures Stored(env, memory0, flat0, [], map[], flat0, memory0)
  {
    assert flat0 + map[] == flat0;
  }

  lemma {:induction false} FlattenPrefix<T>(parts: seq<seq<T>>, b: nat)
    requires b < |parts|
    ensures Flatten(parts[..b+1]) == Flatten(parts[..b]) + parts[b]
    ensures Flatten(parts[..b+1]) <= Flatten(parts)
    decreases |parts| - b
  {
    FlattenSnoc(parts[..b], parts[b]);
    assert parts[..b+1] == parts[..b] + [parts[b]];
    if b + 1 < |parts| {
      FlattenPrefix(parts, b + 1);
    } else {
      assert parts[..b+1] == parts;
    }
  }

  // ----- the fallback loop -----

  ghost predicate SettledItems(
    env: Env, loaded: Loaded, force: bool, translated: map<string, string>, items: seq<TranslationBatches.Item>,
    before: map<string, string>, after: map<string, string>)
  {
    && (forall k :: k in after ==> k in before || k in ItemKeys(items))
    && (forall k :: k in before ==> k in after && after[k] == before[k])
    && (forall i :: 0 <= i < |items| ==> items[i].key in after)
    && forall i :: 0 <= i < |items| && items[i].key in after && items[i].key !in before ==>
         after[items[i].key] == Settle(env, loaded, force, translated, items[i].key, items[i].text).value
  }

  lemma SettleStep(
    env: Env, loaded: Loaded, force: bool, translated: map<string, string>, seen: seq<TranslationBatches.Item>,
    item: TranslationBatches.Item, before: map<string, string>, middle: map<string, string>)
    requires SettledItems(env, loaded, force, translated, seen, before, middle)
    requires item.key !in ItemKeys(seen)
    ensures SettledItems(env, loaded, force, translated, seen + [item], before,
              if item.key in middle then middle
              else middle[item.key := Settle(env, loaded, force, translated, item.key, item.text).value])
    ensures item.key in middle <==> item.key in before
  {
    hide Settle, ItemKeys;
    var all := seen + [item];
    SeenKeys(seen, item);
    forall i | 0 <= i < |seen| ensures all[i] == seen[i] && seen[i].key != item.key {
      SeenAt(seen, i);
    }
  }

  lemma SeenKeys(seen: seq<TranslationBatches.Item>, item: TranslationBatches.Item)
    ensures forall k :: k in ItemKeys(seen + [item]) <==> k in ItemKeys(seen) || k == item.key
  {
    assert ItemKeys(seen + [item]) == ItemKeys(seen) + [item.key];
  }

  lemma SeenAt(seen: seq<TranslationBatches.Item>, i: nat)
    requires i < |seen|
    ensures seen[i].key in ItemKeys(seen)
  {
    assert ItemKeys(seen)[i] == seen[i].key;
  }

  lemma PendingFallbackStep(
    env: Env, loaded: Loaded, force: bool, translated: map<string, string>, seen: seq<TranslationBatches.Item>,
    item: TranslationBatches.Item)
    ensures PendingFallbacks(env, loaded, force, translated, seen + [item])
         == PendingFallbacks(env, loaded, force, translated, seen)
            + (if Settle(env, loaded, force, translated, item.key, item.text).fallback then [item.key] else [])
  {
    assert (seen + [item])[..|seen|] == seen;
  }

  /** The last loop over `pending`: existing text unless forced, the source text otherwise. */
  method SettlePending(
    env: Env, loaded: Loaded, force: bool, ghost translated: map<string, string>,
    pending: seq<TranslationBatches.Item>, flat0: map<string, string>, fallback0: seq<string>)
    returns (nextFlat: map<string, string>, fallbackKeys: seq<string>)
    requires NoDuplicates(ItemKeys(pending))
    requires forall i :: i in pending ==> Decide(env, loaded, i.key, i.text).Translate?
    requires forall i :: i in pending ==> (i.key in flat0 <==> i.key in translated)
    ensures SettledItems(env, loaded, force, translated, pending, flat0, nextFlat)
    ensures fallbackKeys == fallback0 + PendingFallbacks(env, loaded, force, translated, pending)
  {
    hide NoDuplicates, Decide, SettledItems, PendingFallbacks;
    nextFlat, fallbackKeys := flat0, fallback0;
    NothingSettled(env, loaded, force, translated, flat0);
    for n := 0 to |pending|
      invariant SettledItems(env, loaded, force, translated, pending[..n], flat0, nextFlat)
      invariant fallbackKeys == fallback0 + PendingFallbacks(env, loaded, force, translated, pending[..n])
    {
      var item := pending[n];
      assert item in pending;
      assert pending[..n+1] == pending[..n] + [item];
      SeenKey(pending, pending[..n], item);
      SettleStep(env, loaded, force, translated, pending[..n], item, flat0, nextFlat);
      PendingFallbackStep(env, loaded, force, translated, pending[..n], item);
      if item.key !in nextFlat {
        var existing: Option<string> := Get(loaded.existing, item.key);
        if existing.Some? && !force {
          nextFlat := nextFlat[item.key := existing.value];
          if item.key in PreviousFallbacks(loaded) { fallbackKeys := fallbackKeys + [item.key]; }
        } else {
          nextFlat := nextFlat[item.key := item.text];
          fallbackKeys := fallbackKeys + [item.key];
        }
      }
    }
    assert pending[..|pending|] == pending;
  }

  lemma NothingSettled(env: Env, loaded: Loaded, force: bool, translated: map<string, string>, flat0: map<string, string>)
    ensures SettledItems(env, loaded, force, translated, [], flat0, flat0)
    ensures PendingFallbacks(env, loaded, force, translated, []) == []
  {
  }

  // ----- putting the loops together -----

  /** An item queued for one of the first n source entries. */
  ghost predicate Queued(env: Env, loaded: Loaded, n: nat, i: TranslationBatches.Item)
    requires n <= |env.source|
  {
    exists k :: 0 <= k < n && i == ItemFor(env, env.source[k].0, env.source[k].1)
                && Decide(env, loaded, i.key, i.text).Translate?
  }

  lemma PendingSnoc(env: Env, loaded: Loaded, n: nat)
    requires n < |env.source|
    ensures var (key, text) := env.source[n];
      Pending(env, loaded, env.source[..n + 1]) == Pending(env, loaded, env.source[..n])
        + (if Decide(env, loaded, key, text).Keep? then [] else [ItemFor(env, key, text)])
  {
    assert env.source[..n + 1][..n] == env.source[..n];
  }

  /** The queue holds exactly the source entries decided for translation. */
  lemma {:induction false} PendingExact(env: Env, loaded: Loaded, n: nat)
    requires n <= |env.source|
    ensures forall i :: i in Pending(env, loaded, env.source[..n]) <==> Queued(env, loaded, n, i)
  {
    hide Decide;
    if n > 0 {
      PendingExact(env, loaded, n - 1);
      PendingSnoc(env, loaded, n - 1);
      var item := ItemFor(env, env.source[n-1].0, env.source[n-1].1);
      var before, after := Pending(env, loaded, env.source[..n-1]), Pending(env, loaded, env.source[..n]);
      forall i ensures i in after <==> Queued(env, loaded, n, i) {
        assert Queued(env, loaded, n, i) <==>
          Queued(env, loaded, n - 1, i) || (i == item && Decide(env, loaded, i.key, i.text).Translate?);
      }
    }
  }

  lemma {:induction false} PendingDistinct(env: Env, loaded: Loaded, n: nat)
    requires NoDuplicates(KeysOf(env.source)) && n <= |env.source|
    ensures NoDuplicates(ItemKeys(Pending(env, loaded, env.source[..n])))
  {
    hide Decide;
    if n > 0 {
      PendingDistinct(env, loaded, n - 1);
      PendingSnoc(env, loaded, n - 1);
      PendingExact(env, loaded, n - 1);
      var before, item := Pending(env, loaded, env.source[..n-1]), ItemFor(env, env.source[n-1].0, env.source[n-1].1);
      FreshKey(env.source, n - 1);
      forall i | i in before ensures i.key != item.key {
        assert Queued(env, loaded, n - 1, i);
      }
      NewItemKey(before, item);
      assert before + [] == before;
    }
  }

  lemma NewItemKey(items: seq<TranslationBatches.Item>, item: TranslationBatches.Item)
    requires NoDuplicates(ItemKeys(items)) && forall i :: i in items ==> i.key != item.key
    ensures NoDuplicates(ItemKeys(items + [item]))
  {
    assert ItemKeys(items + [item]) == ItemKeys(items) + [item.key];
    forall i | 0 <= i < |items| ensures ItemKeys(items)[i] != item.key {
      assert items[i] in items;
    }
    NoDuplicatesConcat(ItemKeys(items), [item.key]);
  }

  lemma PendingItems(env: Env, loaded: Loaded)
    requires NoDuplicates(KeysOf(env.source))
    ensures forall i :: i in Pending(env, loaded, env.source) <==> Queued(env, loaded, |env.source|, i)
    ensures NoDuplicates(ItemKeys(Pending(env, loaded, env.source)))
  {
    var n := |env.source|;
    assert env.source[..n] == env.source;
    PendingExact(env, loaded, n);
    PendingDistinct(env, loaded, n);
  }

  /** After both loops every source key holds its settled value. */
  lemma SettledValue(
    env: Env, loaded: Loaded, force: bool, translated: map<string, string>,
    kept: map<string, string>, nextFlat: map<string, string>, n: nat)
    requires NoDuplicates(KeysOf(env.source)) && n < |env.source|
    requires Kept(env, loaded, env.source, kept)
    requires forall k :: k in translated ==> k in TranslationRetry.KeysOf(Pending(env, loaded, env.source))
    requires SettledItems(env, loaded, force, translated, Pending(env, loaded, env.source), kept + translated, nextFlat)
    ensures env.source[n].0 in nextFlat
    ensures nextFlat[env.source[n].0] == Settle(env, loaded, force, translated, env.source[n].0, env.source[n].1).value
  {
    hide Decide, NoDuplicates;
    var (key, text) := env.source[n];
    var pending := Pending(env, loaded, env.source);
    PendingItems(env, loaded);
    assert KeptEntry(Decide(env, loaded, key, text), kept, key);
    if Decide(env, loaded, key, text).Keep? {
      KeptNotPending(env, loaded, n);
    } else {
      assert Queued(env, loaded, |env.source|, ItemFor(env, key, text));
      var j :| 0 <= j < |pending| && pending[j] == ItemFor(env, key, text);
      assert pending[j].key in nextFlat;
    }
  }

  lemma KeptNotPending(env: Env, loaded: Loaded, n: nat)
    requires NoDuplicates(KeysOf(env.source)) && n < |env.source|
    requires Decide(env, loaded, env.source[n].0, env.source[n].1).Keep?
    ensures env.source[n].0 !in TranslationRetry.KeysOf(Pending(env, loaded, env.source))
  {
    hide NoDuplicates, Decide;
    PendingItems(env, loaded);
    forall i | i in Pending(env, loaded, env.source) ensures i.key != env.source[n].0 {
      assert Queued(env, loaded, |env.source|, i);
      var k :| 0 <= k < |env.source| && i == ItemFor(env, env.source[k].0, env.source[k].1)
               && Decide(env, loaded, i.key, i.text).Translate?;
      DistinctKeys(env.source, k, n);
    }
  }

  lemma DistinctKeys(source: Flat, k: nat, n: nat)
    requires NoDuplicates(KeysOf(source)) && k < |source| && n < |source|
    ensures k != n ==> source[k].0 != source[n].0
  {
    assert KeysOf(source)[k] == source[k].0 && KeysOf(source)[n] == source[n].0;
  }

  lemma {:induction false} KeptFallbackKeys(env: Env, loaded: Loaded, n: nat)
    requires NoDuplicates(KeysOf(env.source)) && n <= |env.source|
    ensures var keys := KeptFallbacks(env, loaded, env.source[..n]);
      && NoDuplicates(keys)
      && forall k :: k in keys <==> exists i :: 0 <= i < n && env.source[i].0 == k && Refresh(loaded, k)
                                               && Decide(env, loaded, k, env.source[i].1).Keep?
  {
    hide Decide, Refresh;
    if n > 0 {
      KeptFallbackKeys(env, loaded, n - 1);
      assert env.source[..n][..n-1] == env.source[..n-1];
      FreshKey(env.source, n - 1);
    }
  }

  lemma {:induction false} PendingFallbackKeys(
    env: Env, loaded: Loaded, force: bool, translated: map<string, string>, items: seq<TranslationBatches.Item>)
    requires NoDuplicates(ItemKeys(items))
    ensures var keys := PendingFallbacks(env, loaded, force, translated, items);
      && NoDuplicates(keys)
      && forall k :: k in keys <==> exists i :: i in items && i.key == k
                                               && Settle(env, loaded, force, translated, k, i.text).fallback
  {
    hide Settle;
    if items != [] {
      var front, last := items[..|items|-1], items[|items|-1];
      assert items == front + [last];
      assert ItemKeys(items) == ItemKeys(front) + [last.key];
      NoDuplicatesSplit(ItemKeys(front), [last.key]);
      PendingFallbackKeys(env, loaded, force, translated, front);
      var keys := PendingFallbacks(env, loaded, force, translated, front);
      forall k | k in keys ensures k in ItemKeys(front) {
        var i :| i in front && i.key == k;
        var j :| 0 <= j < |front| && front[j] == i;
        assert ItemKeys(front)[j] == k;
      }
      NoDuplicatesConcat(keys, [last.key]);
      assert keys + [] == keys;
    }
  }

  ghost predicate IsFallback(env: Env, loaded: Loaded, force: bool, translated: map<string, string>, k: string) {
    exists i :: 0 <= i < |env.source| && env.source[i].0 == k
                && Settle(env, loaded, force, translated, k, env.source[i].1).fallback
  }

  lemma FallbackPartsDisjoint(env: Env, loaded: Loaded, force: bool, translated: map<string, string>, k: string)
    requires NoDuplicates(KeysOf(env.source))
    requires k in KeptFallbacks(env, loaded, env.source)
    ensures k !in PendingFallbacks(env, loaded, force, translated, Pending(env, loaded, env.source))
  {
    hide NoDuplicates, KeptFallbacks, PendingFallbacks, Pending, Settle;
    var n, pending := |env.source|, Pending(env, loaded, env.source);
    assert env.source[..n] == env.source;
    PendingItems(env, loaded);
    KeptFallbackKeys(env, loaded, n);
    PendingFallbackKeys(env, loaded, force, translated, pending);
    var i :| 0 <= i < n && env.source[i].0 == k && Refresh(loaded, k) && Decide(env, loaded, k, env.source[i].1).Keep?;
    KeptNotPending(env, loaded, i);
  }

  lemma FallbackParts(env: Env, loaded: Loaded, force: bool, translated: map<string, string>, k: string)
    requires NoDuplicates(KeysOf(env.source))
    ensures k in FallbackKeys(env, loaded, force, translated) <==> IsFallback(env, loaded, force, translated, k)
  {
    hide NoDuplicates, KeptFallbacks, PendingFallbacks, Pending;
    var n, pending := |env.source|, Pending(env, loaded, env.source);
    assert env.source[..n] == env.source;
    PendingItems(env, loaded);
    KeptFallbackKeys(env, loaded, n);
    PendingFallbackKeys(env, loaded, force, translated, pending);
    if k in PendingFallbacks(env, loaded, force, translated, pending) {
      var item :| item in pending && item.key == k && Settle(env, loaded, force, translated, k, item.text).fallback;
      assert Queued(env, loaded, n, item);
    }
    if IsFallback(env, loaded, force, translated, k) {
      var i :| 0 <= i < n && env.source[i].0 == k && Settle(env, loaded, force, translated, k, env.source[i].1).fallback;
      if !Decide(env, loaded, k, env.source[i].1).Keep? {
        assert Queued(env, loaded, n, ItemFor(env, env.source[i].0, env.source[i].1));
      }
    }
  }

  /** Fallback keys: the source keys settled as fallbacks, each once. */
  lemma FallbackKeysExact(env: Env, loaded: Loaded, force: bool, translated: map<string, string>)
    requires NoDuplicates(KeysOf(env.source))
    ensures NoDuplicates(FallbackKeys(env, loaded, force, translated))
    ensures forall k :: k in FallbackKeys(env, loaded, force, translated) <==>
                        IsFallback(env, loaded, force, translated, k)
  {
    hide KeptFallbacks, PendingFallbacks, Pending, Settle, IsFallback;
    var n := |env.source|;
    assert env.source[..n] == env.source;
    PendingItems(env, loaded);
    KeptFallbackKeys(env, loaded, n);
    PendingFallbackKeys(env, loaded, force, translated, Pending(env, loaded, env.source));
    forall k | k in KeptFallbacks(env, loaded, env.source)
      ensures k !in PendingFallbacks(env, loaded, force, translated, Pending(env, loaded, env.source))
    {
      FallbackPartsDisjoint(env, loaded, force, translated, k);
    }
    NoDuplicatesConcat(KeptFallbacks(env, loaded, env.source),
                       PendingFallbacks(env, loaded, force, translated, Pending(env, loaded, env.source)));
    forall k ensures k in FallbackKeys(env, loaded, force, translated) <==> IsFallback(env, loaded, force, translated, k) {
      FallbackParts(env, loaded, force, translated, k);
    }
  }

  /** `nextFlat.get(key) ?? value` for every source key. */
  method CollectValues(
    env: Env, loaded: Loaded, force: bool, ghost translated: map<string, string>,
    ghost kept: map<string, string>, nextFlat: map<string, string>)
    returns (values: Flat)
    requires NoDuplicates(KeysOf(env.source))
    requires Kept(env, loaded, env.source, kept)
    requires forall k :: k in translated ==> k in TranslationRetry.KeysOf(Pending(env, loaded, env.source))
    requires SettledItems(env, loaded, force, translated, Pending(env, loaded, env.source), kept + translated, nextFlat)
    ensures values == NextFlat(env, loaded, force, translated, env.source)
  {
    hide NoDuplicates, Kept, SettledItems, Settle, Pending;
    values := [];
    for k := 0 to |env.source|
      invariant values == NextFlat(env, loaded, force, translated, env.source)[..k]
    {
      var (key, value) := env.source[k];
      SettledValue(env, loaded, force, translated, kept, nextFlat, k);
      values := values + [(key, if key in nextFlat then nextFlat[key] else value)];
    }
  }

  method SyncLocale(env: Env, files: Files, options: Options, client: TranslationRetry.Client)
    returns (r: Result<SyncResult, string>, translated: map<string, string>)
    requires NoDuplicates(KeysOf(env.source))
    modifies client
    ensures r.Ok? ==> r.value == Sync(env, files, options, translated)
    ensures r.Ok? ==> if env.allowTranslate then Complete(translated, Pending(env, Load(env, files), env.source))
                      else translated == map[]
    ensures if env.allowTranslate
            then TranslationRuns.RunsTo(
                   client.provider, old(client.prompts), Pending(env, Load(env, files), env.source), env.budget,
                   TranslationRetry.Run(if r.Ok? then Ok(translated) else Err(r.error), client.prompts))
            else r.Ok? && client.prompts == old(client.prompts)
    ensures r.Ok? ==> forall k :: k in translated ==>
              TranslationRetry.Provenance(client.provider, old(client.prompts), client.prompts, k, translated[k])
  {
    hide NoDuplicates, Decide, SettledItems, Complete, Kept, Finish, NextMeta, TranslationRuns.RunsTo,
         TranslationRetry.Provenance;
    ghost var at := client.prompts;
    var loaded := Load(env, files);
    var n := |env.source|;
    assert env.source[..n] == env.source;
    PendingItems(env, loaded);
    var nextFlat, pending, fallbackKeys := SelectKeys(env, loaded);
    ghost var kept := nextFlat;
    translated := map[];
    var memory := loaded.memory;
    assert kept + map[] == kept;
    NothingTranslated(env, loaded.memory, pending);
    NoRun(client.provider, at, env.budget);
    if env.allowTranslate && |pending| > 0 {
      var reply;
      reply, nextFlat, memory := TranslatePending(env, client, pending, nextFlat, memory);
      if reply.Err? { return Err(reply.error), map[]; }
      translated := reply.value;
    }
    TranslatedKeys(env, loaded, kept, translated);
    nextFlat, fallbackKeys := SettlePending(env, loaded, options.force, translated, pending, nextFlat, fallbackKeys);
    var values := CollectValues(env, loaded, options.force, translated, kept, nextFlat);
    FallbackKeysExact(env, loaded, options.force, translated);
    UniqueDistinct(fallbackKeys);
    var plan := Plan(
      values, NextMeta(env, loaded, ToSorted(env.leq, Unique(fallbackKeys))),
      if |loaded.glossary.terms| == 0 then env.defaultGlossary else loaded.glossary, memory);
    r := Ok(Finish(env, files, options, plan));
    if env.allowTranslate {
      TranslationRuns.RunSound(client.provider, at, pending, env.budget, TranslationRetry.Run(Ok(translated), client.prompts));
    }
  }

  lemma NoRun(provider: TranslationRetry.Provider, at: nat, budget: real)
    ensures TranslationRuns.RunsTo(provider, at, [], budget, TranslationRetry.Run(Ok(map[]), at))
  {
    assert TranslationRuns.IsRun(provider, at, [], [], budget, TranslationRetry.Run(Ok(map[]), at));
  }

  lemma {:induction false} NothingTranslated(env: Env, memory: TranslationMemory, items: seq<TranslationBatches.Item>)
    ensures Remember(env, memory, map[], items) == memory
    ensures Complete(map[], [])
  {
    if items != [] {
      NothingTranslated(env, memory, items[..|items|-1]);
    }
  }

  lemma TranslatedKeys(env: Env, loaded: Loaded, kept: map<string, string>, translated: map<string, string>)
    requires NoDuplicates(KeysOf(env.source)) && Kept(env, loaded, env.source, kept)
    requires translated == map[] || Complete(translated, Pending(env, loaded, env.source))
    ensures forall k :: k in translated ==> k in TranslationRetry.KeysOf(Pending(env, loaded, env.source))
    ensures forall i :: i in Pending(env, loaded, env.source) ==> (i.key in kept + translated <==> i.key in translated)
    ensures forall i :: i in Pending(env, loaded, env.source) ==> Decide(env, loaded, i.key, i.text).Translate?
    ensures NoDuplicates(ItemKeys(Pending(env, loaded, env.source)))
  {
    hide NoDuplicates, Decide;
    PendingItems(env, loaded);
    forall i | i in Pending(env, loaded, env.source) ensures i.key !in kept {
      assert Queued(env, loaded, |env.source|, i);
      var k :| 0 <= k < |env.source| && i == ItemFor(env, env.source[k].0, env.source[k].1)
               && Decide(env, loaded, i.key, i.text).Translate?;
      assert KeptEntry(Decide(env, loaded, env.source[k].0, env.source[k].1), kept, env.source[k].0);
    }
  }
}
