/** The batches of one locale, translated one after the other. */
module TranslationRuns {
  import opened Results
  import opened Sequences
  import opened TranslationBatches
  import opened TranslationRetry

  /** The first batch that fails ends the run. */
  function TranslateAll(provider: Provider, at: nat, batches: seq<seq<Item>>): Run {
    if batches == [] then Run(Ok(map[]), at)
    else
      var before := TranslateAll(provider, at, batches[..|batches|-1]);
      if before.result.Err? then before
      else
        var last := Translate(provider, before.prompts, batches[|batches|-1]);
        if last.result.Err? then last
        else Run(Ok(before.result.value + last.result.value), last.prompts)
  }

  /** What the greedy batches of the items come to. */
  ghost predicate RunsTo(provider: Provider, at: nat, items: seq<Item>, budget: real, run: Run) {
    exists batches :: IsRun(provider, at, batches, items, budget, run)
  }

  ghost predicate IsRun(provider: Provider, at: nat, batches: seq<seq<Item>>, items: seq<Item>, budget: real, run: Run) {
    && Partitions(batches, items, budget) && Greedy(batches, budget)
    && run == TranslateAll(provider, at, batches)
  }

  lemma RunUnique(provider: Provider, at: nat, items: seq<Item>, budget: real, a: Run, b: Run)
    requires RunsTo(provider, at, items, budget, a) && RunsTo(provider, at, items, budget, b)
    ensures a == b
  {
    hide Partitions, Greedy, TranslateAll;
    var c :| IsRun(provider, at, c, items, budget, a);
    var d :| IsRun(provider, at, d, items, budget, b);
    GreedyUnique(c, d, items, budget);
  }

  lemma TranslateAllSnoc(provider: Provider, at: nat, batches: seq<seq<Item>>, b: nat)
    requires b < |batches| && TranslateAll(provider, at, batches[..b]).result.Ok?
    ensures var before, after := TranslateAll(provider, at, batches[..b]), TranslateAll(provider, at, batches[..b + 1]);
      var last := Translate(provider, before.prompts, batches[b]);
      if last.result.Err? then after == last
      else after == Run(Ok(before.result.value + last.result.value), last.prompts)
  {
    hide Attempts;
    assert batches[..b + 1][..b] == batches[..b] && batches[..b + 1][b] == batches[b];
  }

  lemma {:induction false} FailureEnds(provider: Provider, at: nat, batches: seq<seq<Item>>, b: nat)
    requires b <= |batches| && TranslateAll(provider, at, batches[..b]).result.Err?
    ensures TranslateAll(provider, at, batches) == TranslateAll(provider, at, batches[..b])
    decreases |batches|
  {
    hide Attempts;
    if b == |batches| {
      assert batches[..b] == batches;
    } else {
      var front := batches[..|batches|-1];
      assert front[..b] == batches[..b];
      FailureEnds(provider, at, front, b);
    }
  }

  /** The whole run is sound: on success every item, and nothing else, has a text that some prompt gave for it. */
  lemma {:induction false} TranslateAllSound(provider: Provider, at: nat, batches: seq<seq<Item>>)
    ensures Sound(provider, at, Flatten(batches), TranslateAll(provider, at, batches))
  {
    hide Attempts, ValidTranslation, Provenance;
    if batches == [] {
      NothingValid();
    } else {
      var front, batch := batches[..|batches|-1], batches[|batches|-1];
      assert batches == front + [batch];
      TranslateAllSound(provider, at, front);
      FlattenSnoc(front, batch);
      var before := TranslateAll(provider, at, front);
      if before.result.Ok? {
        TranslateSound(provider, before.prompts, batch, 0, "translation failed");
        var last := Translate(provider, before.prompts, batch);
        if last.result.Ok? {
          BothSound(provider, at, Flatten(front), before, batch, last);
        }
      }
    }
  }

  lemma NothingValid()
    ensures ValidTranslation(map[], [])
  {
  }

  lemma BothSound(provider: Provider, at: nat, a: seq<Item>, left: Run, b: seq<Item>, right: Run)
    requires Sound(provider, at, a, left) && left.result.Ok?
    requires Sound(provider, left.prompts, b, right) && right.result.Ok?
    ensures Sound(provider, at, a + b, Run(Ok(left.result.value + right.result.value), right.prompts))
  {
    hide Provenance, ValidTranslation;
    var all := left.result.value + right.result.value;
    JoinValid(left.result.value, a, right.result.value, b);
    forall k | k in all ensures Provenance(provider, at, right.prompts, k, all[k]) {
      if k in right.result.value {
        ProvenanceWider(provider, left.prompts, right.prompts, at, right.prompts, k, all[k]);
      } else {
        ProvenanceWider(provider, at, left.prompts, at, right.prompts, k, all[k]);
      }
    }
  }

  lemma RunSound(provider: Provider, at: nat, items: seq<Item>, budget: real, run: Run)
    requires RunsTo(provider, at, items, budget, run)
    ensures Sound(provider, at, items, run)
  {
    hide Greedy, TranslateAll, Sound;
    var batches :| IsRun(provider, at, batches, items, budget, run);
    TranslateAllSound(provider, at, batches);
  }

  /** The first batch to fail, with all before it translated, gives the error and stops the prompts. */
  lemma {:induction false} FailureOfOneBatch(provider: Provider, at: nat, batches: seq<seq<Item>>)
    requires TranslateAll(provider, at, batches).result.Err?
    ensures exists b :: 0 <= b < |batches| && TranslateAll(provider, at, batches[..b]).result.Ok?
                        && TranslateAll(provider, at, batches)
                           == Translate(provider, TranslateAll(provider, at, batches[..b]).prompts, batches[b])
  {
    hide Attempts;
    var n := |batches| - 1;
    var front := batches[..n];
    if TranslateAll(provider, at, front).result.Err? {
      FailureOfOneBatch(provider, at, front);
      var b :| 0 <= b < n && TranslateAll(provider, at, front[..b]).result.Ok?
               && TranslateAll(provider, at, front)
                  == Translate(provider, TranslateAll(provider, at, front[..b]).prompts, front[b]);
      assert front[..b] == batches[..b] && front[b] == batches[b];
    }
  }
}
