/** `translateBatch` of `scripts/control-ui-i18n.ts`: retries, and recursive splitting on a timeout. */
module TranslationRetry {
  import opened Results
  import opened Text
  import opened TranslationBatches

  const TRANSLATE_MAX_ATTEMPTS := 2

  datatype JsonValue = Str(text: string) | NotString

  /** One prompt: a parsed JSON object, or any error (timeout, transport, unparsable reply). */
  datatype Outcome = Answer(parsed: map<string, JsonValue>) | Failure(message: string)

  type Translations = map<string, string>

  /** The model process: its reply may depend on how many prompts it has seen and on the batch. */
  type Provider = (nat, seq<Item>) -> Outcome

  predicate TimedOut(message: string) {
    Includes(AsciiLower(message), "timed out")
  }

  /** Reads the reply item by item; the first missing or blank translation is an error. */
  function Collect(parsed: map<string, JsonValue>, items: seq<Item>, found: Translations): Result<Translations, string>
    decreases items
  {
    if items == [] then Ok(found)
    else
      var key := items[0].key;
      if key in parsed && parsed[key].Str? && Trim(parsed[key].text) != ""
      then Collect(parsed, items[1..], found[key := parsed[key].text])
      else Err("missing translation for " + key)
  }

  function Read(outcome: Outcome, items: seq<Item>): Result<Translations, string> {
    match outcome
    case Answer(parsed) => Collect(parsed, items, map[])
    case Failure(message) => Err(message)
  }

  datatype Run = Run(result: Result<Translations, string>, prompts: nat)

  /** The run from a given attempt on, when `at` prompts have been issued before. */
  function Attempts(provider: Provider, at: nat, items: seq<Item>, attempt: nat, lastError: string): Run
    decreases |items|, TRANSLATE_MAX_ATTEMPTS - attempt
  {
    if attempt >= TRANSLATE_MAX_ATTEMPTS then Run(Err(lastError), at)
    else
      match Read(provider(at, items), items)
      case Ok(found) => Run(Ok(found), at + 1)
      case Err(message) =>
        if TimedOut(message) && |items| > 1 then Split(provider, at + 1, items)
        else if TimedOut(message) then Run(Err(message), at + 1)
        else Attempts(provider, at + 1, items, attempt + 1, message)
  }

  function Midpoint(items: seq<Item>): nat {
    (|items| + 1) / 2
  }

  function Split(provider: Provider, at: nat, items: seq<Item>): Run
    requires |items| > 1
    decreases |items|, 0
  {
    var left := Attempts(provider, at, items[..Midpoint(items)], 0, "translation failed");
    if left.result.Err? then left
    else
      var right := Attempts(provider, left.prompts, items[Midpoint(items)..], 0, "translation failed");
      if right.result.Err? then right
      else Run(Ok(left.result.value + right.result.value), right.prompts)
  }

  function Translate(provider: Provider, at: nat, items: seq<Item>): Run {
    Attempts(provider, at, items, 0, "translation failed")
  }

  class Client {
    const provider: Provider
    var prompts: nat

    constructor (provider: Provider)
      ensures this.provider == provider && prompts == 0
    {
      this.provider, prompts := provider, 0;
    }

    method Prompt(items: seq<Item>) returns (outcome: Outcome)
      modifies this
      ensures outcome == provider(old(prompts), items) && prompts == old(prompts) + 1
    {
      outcome := provider(prompts, items);
      prompts := prompts + 1;
    }
  }

  method ReadReply(outcome: Outcome, items: seq<Item>) returns (r: Result<Translations, string>)
    ensures r == Read(outcome, items)
  {
    if outcome.Failure? { return Err(outcome.message); }
    var translated: Translations := map[];
    for i := 0 to |items|
      invariant Collect(outcome.parsed, items, map[]) == Collect(outcome.parsed, items[i..], translated)
    {
      var key := items[i].key;
      if key !in outcome.parsed || !outcome.parsed[key].Str? || Trim(outcome.parsed[key].text) == "" {
        return Err("missing translation for " + key);
      }
      translated := translated[key := outcome.parsed[key].text];
    }
    return Ok(translated);
  }

  method TranslateBatch(client: Client, items: seq<Item>) returns (r: Result<Translations, string>)
    modifies client
    decreases |items|
    ensures r == Translate(client.provider, old(client.prompts), items).result
    ensures client.prompts == Translate(client.provider, old(client.prompts), items).prompts
  {
    ghost var at, provider := client.prompts, client.provider;
    var lastError := "translation failed";
    for attempt := 0 to TRANSLATE_MAX_ATTEMPTS
      invariant Translate(provider, at, items) == Attempts(provider, client.prompts, items, attempt, lastError)
    {
      var outcome := client.Prompt(items);
      var reply := ReadReply(outcome, items);
      if reply.Ok? { return reply; }
      lastError := reply.error;
      if TimedOut(lastError) && |items| > 1 {
        var midpoint := Midpoint(items);
        var left := TranslateBatch(client, items[..midpoint]);
        if left.Err? { return left; }
        var right := TranslateBatch(client, items[midpoint..]);
        if right.Err? { return right; }
        return Ok(left.value + right.value);
      }
      if TimedOut(lastError) { return Err(lastError); }
    }
    return Err(lastError);
  }

  // ----- what every run satisfies -----

  ghost predicate ValidTranslation(found: Translations, items: seq<Item>) {
    && found.Keys == KeysOf(items)
    && forall k :: k in found ==> Trim(found[k]) != ""
  }

  /** Some prompt, numbered from `at` up to `end`, for a batch with this item, returned this text. */
  ghost predicate Provenance(provider: Provider, at: nat, end: nat, key: string, text: string) {
    exists n: nat, batch :: FromPrompt(provider, n, batch, key, text) && at <= n < end
  }

  ghost predicate FromPrompt(provider: Provider, n: nat, batch: seq<Item>, key: string, text: string) {
    && provider(n, batch).Answer?
    && (exists i :: i in batch && i.key == key)
    && key in provider(n, batch).parsed && provider(n, batch).parsed[key] == Str(text)
  }

  ghost function KeysOf(items: seq<Item>): set<string> {
    set i | i in items :: i.key
  }

  lemma KeysOfConcat(a: seq<Item>, b: seq<Item>)
    ensures KeysOf(a + b) == KeysOf(a) + KeysOf(b)
  {
    forall i | i in a ensures i in a + b {}
    forall i | i in b ensures i in a + b {}
  }

  lemma {:induction false} CollectValid(parsed: map<string, JsonValue>, items: seq<Item>, found: Translations)
    requires forall k :: k in found ==> Trim(found[k]) != "" && k in parsed && parsed[k] == Str(found[k])
    ensures var r := Collect(parsed, items, found);
      r.Ok? ==>
        && r.value.Keys == found.Keys + KeysOf(items)
        && forall k :: k in r.value ==> Trim(r.value[k]) != "" && k in parsed && parsed[k] == Str(r.value[k])
    decreases items
  {
    hide Trim;
    if items == [] {
      assert KeysOf(items) == {};
    } else {
      var key := items[0].key;
      if key in parsed && parsed[key].Str? && Trim(parsed[key].text) != "" {
        CollectValid(parsed, items[1..], found[key := parsed[key].text]);
        KeysOfConcat(items[..1], items[1..]);
        assert items == items[..1] + items[1..] && KeysOf(items[..1]) == {key};
      }
    }
  }

  ghost predicate Sound(provider: Provider, at: nat, items: seq<Item>, run: Run) {
    && run.prompts >= at
    && (run.result.Ok? ==>
        && ValidTranslation(run.result.value, items)
        && forall k :: k in run.result.value ==> Provenance(provider, at, run.prompts, k, run.result.value[k]))
  }

  lemma ReadSound(provider: Provider, at: nat, items: seq<Item>)
    ensures Sound(provider, at, items, Run(Read(provider(at, items), items), at + 1))
  {
    hide Trim;
    var outcome := provider(at, items);
    if Read(outcome, items).Ok? {
      var found := Read(outcome, items).value;
      CollectValid(outcome.parsed, items, map[]);
      forall k | k in found ensures Provenance(provider, at, at + 1, k, found[k]) {
        assert k in KeysOf(items);
        assert FromPrompt(provider, at, items, k, found[k]);
      }
    }
  }

  lemma ProvenanceWider(provider: Provider, at: nat, end: nat, at': nat, end': nat, key: string, text: string)
    requires Provenance(provider, at, end, key, text) && at' <= at && end <= end'
    ensures Provenance(provider, at', end', key, text)
  {
    hide FromPrompt;
  }

  lemma JoinValid(l: Translations, a: seq<Item>, r: Translations, b: seq<Item>)
    requires ValidTranslation(l, a) && ValidTranslation(r, b)
    ensures ValidTranslation(l + r, a + b)
  {
    hide Trim;
    KeysOfConcat(a, b);
  }

  lemma JoinSound(provider: Provider, at: nat, items: seq<Item>, mid: nat, left: Run, right: Run)
    requires mid <= |items| && Sound(provider, at + 1, items[..mid], left) && left.result.Ok?
    requires Sound(provider, left.prompts, items[mid..], right) && right.result.Ok?
    ensures Sound(provider, at, items, Run(Ok(left.result.value + right.result.value), right.prompts))
  {
    hide Trim, Provenance, ValidTranslation;
    var l, r := left.result.value, right.result.value;
    var all := l + r;
    JoinValid(l, items[..mid], r, items[mid..]);
    assert items == items[..mid] + items[mid..];
    forall k | k in all ensures Provenance(provider, at, right.prompts, k, all[k]) {
      if k in r {
        ProvenanceWider(provider, left.prompts, right.prompts, at, right.prompts, k, all[k]);
      } else {
        ProvenanceWider(provider, at + 1, left.prompts, at, right.prompts, k, all[k]);
      }
    }
  }

  /** Success gives every key of the batch, and no other, a non-blank text some prompt returned for it. */
  lemma {:induction false} TranslateSound(provider: Provider, at: nat, items: seq<Item>, attempt: nat, lastError: string)
    ensures Sound(provider, at, items, Attempts(provider, at, items, attempt, lastError))
    decreases |items|, TRANSLATE_MAX_ATTEMPTS - attempt
  {
    if attempt < TRANSLATE_MAX_ATTEMPTS {
      ReadSound(provider, at, items);
      match Read(provider(at, items), items)
      case Ok(found) =>
      case Err(message) =>
        if TimedOut(message) && |items| > 1 {
          SplitSound(provider, at, items);
        } else if !TimedOut(message) {
          TranslateSound(provider, at + 1, items, attempt + 1, message);
          SoundEarlier(provider, at, items, Attempts(provider, at + 1, items, attempt + 1, message));
        }
    }
  }

  lemma SoundEarlier(provider: Provider, at: nat, items: seq<Item>, run: Run)
    requires Sound(provider, at + 1, items, run)
    ensures Sound(provider, at, items, run)
  {
    hide Trim, Provenance;
    if run.result.Ok? {
      forall k | k in run.result.value ensures Provenance(provider, at, run.prompts, k, run.result.value[k]) {
        ProvenanceWider(provider, at + 1, run.prompts, at, run.prompts, k, run.result.value[k]);
      }
    }
  }

  lemma SplitSound(provider: Provider, at: nat, items: seq<Item>)
    requires |items| > 1
    ensures Sound(provider, at, items, Split(provider, at + 1, items))
    decreases |items|, 0
  {
    hide ValidTranslation, Provenance;
    var mid := Midpoint(items);
    var left := Attempts(provider, at + 1, items[..mid], 0, "translation failed");
    TranslateSound(provider, at + 1, items[..mid], 0, "translation failed");
    if left.result.Ok? {
      TranslateSound(provider, left.prompts, items[mid..], 0, "translation failed");
      var right := Attempts(provider, left.prompts, items[mid..], 0, "translation failed");
      if right.result.Ok? {
        JoinSound(provider, at, items, mid, left, right);
      }
    }
  }

  function PromptBound(n: nat): nat {
    if n == 0 then TRANSLATE_MAX_ATTEMPTS else 4 * n - 2
  }

  /** A batch of n items costs at most 4n - 2 prompts, retries and splits included. */
  lemma {:induction false} TranslateBounded(provider: Provider, at: nat, items: seq<Item>, attempt: nat, lastError: string)
    requires attempt <= TRANSLATE_MAX_ATTEMPTS
    ensures Attempts(provider, at, items, attempt, lastError).prompts + attempt <= at + PromptBound(|items|)
    decreases |items|, TRANSLATE_MAX_ATTEMPTS - attempt
  {
    if attempt < TRANSLATE_MAX_ATTEMPTS {
      match Read(provider(at, items), items)
      case Ok(_) =>
      case Err(message) =>
        if TimedOut(message) && |items| > 1 {
          var mid := Midpoint(items);
          TranslateBounded(provider, at + 1, items[..mid], 0, "translation failed");
          var left := Attempts(provider, at + 1, items[..mid], 0, "translation failed");
          if left.result.Ok? {
            TranslateBounded(provider, left.prompts, items[mid..], 0, "translation failed");
          }
        } else if !TimedOut(message) {
          TranslateBounded(provider, at + 1, items, attempt + 1, message);
        }
    }
  }

  /** One of the prompts numbered from `at` up to `end`, for one of the items alone, failed with this error. */
  ghost predicate FailedAlone(provider: Provider, at: nat, end: nat, items: seq<Item>, error: string) {
    exists n: nat, i: Item :: i in items && at <= n < end && Read(provider(n, [i]), [i]) == Err(error)
  }

  lemma FailedAloneWider(
    provider: Provider, at: nat, end: nat, items: seq<Item>, at': nat, end': nat, items': seq<Item>, error: string)
    requires FailedAlone(provider, at, end, items, error)
    requires at' <= at && end <= end' && forall i :: i in items ==> i in items'
    ensures FailedAlone(provider, at', end', items', error)
  {
    hide Read;
  }

  /** A timeout surfaces only from a prompt for a single item: larger batches are split instead. */
  lemma {:induction false} TimeoutOnlyForOneItem(provider: Provider, at: nat, items: seq<Item>, attempt: nat, lastError: string)
    requires items != [] && attempt < TRANSLATE_MAX_ATTEMPTS
    ensures var r := Attempts(provider, at, items, attempt, lastError);
      r.prompts >= at
      && (r.result.Err? && TimedOut(r.result.error) ==> FailedAlone(provider, at, r.prompts, items, r.result.error))
    decreases |items|, TRANSLATE_MAX_ATTEMPTS - attempt
  {
    var run := Attempts(provider, at, items, attempt, lastError);
    match Read(provider(at, items), items)
    case Ok(_) =>
    case Err(message) =>
      if TimedOut(message) && |items| > 1 {
        SplitTimeout(provider, at, items);
      } else if TimedOut(message) {
        assert items == [items[0]];
        assert FailedAlone(provider, at, at + 1, items, message);
      } else if attempt + 1 < TRANSLATE_MAX_ATTEMPTS {
        hide FailedAlone, TimedOut, Read;
        TimeoutOnlyForOneItem(provider, at + 1, items, attempt + 1, message);
        if run.result.Err? && TimedOut(run.result.error) {
          FailedAloneWider(provider, at + 1, run.prompts, items, at, run.prompts, items, run.result.error);
        }
      }
  }

  lemma SplitTimeout(provider: Provider, at: nat, items: seq<Item>)
    requires |items| > 1
    ensures var r := Split(provider, at + 1, items);
      r.prompts >= at
      && (r.result.Err? && TimedOut(r.result.error) ==> FailedAlone(provider, at, r.prompts, items, r.result.error))
    decreases |items|, 0
  {
    hide FailedAlone, TimedOut;
    var mid, run := Midpoint(items), Split(provider, at + 1, items);
    TimeoutOnlyForOneItem(provider, at + 1, items[..mid], 0, "translation failed");
    var left := Attempts(provider, at + 1, items[..mid], 0, "translation failed");
    if left.result.Ok? {
      TimeoutOnlyForOneItem(provider, left.prompts, items[mid..], 0, "translation failed");
      if run.result.Err? && TimedOut(run.result.error) {
        FailedAloneWider(provider, left.prompts, run.prompts, items[mid..], at, run.prompts, items, run.result.error);
      }
    } else if TimedOut(run.result.error) {
      FailedAloneWider(provider, at + 1, run.prompts, items[..mid], at, run.prompts, items, run.result.error);
    }
  }

  /** A provider that answers every single item and at worst times out on more always succeeds. */
  lemma {:induction false} SplittingRecovers(provider: Provider, at: nat, items: seq<Item>)
    requires items != []
    requires forall n: nat, b: seq<Item> :: b != [] && Read(provider(n, b), b).Err? ==>
               |b| > 1 && TimedOut(Read(provider(n, b), b).error)
    ensures Translate(provider, at, items).result.Ok?
    decreases |items|
  {
    if Read(provider(at, items), items).Err? {
      var mid := Midpoint(items);
      assert |items| > 1 && TimedOut(Read(provider(at, items), items).error);
      assert Translate(provider, at, items) == Split(provider, at + 1, items);
      SplittingRecovers(provider, at + 1, items[..mid]);
      SplittingRecovers(provider, Translate(provider, at + 1, items[..mid]).prompts, items[mid..]);
    }
  }

  // ----- the bound is reached -----

  function Echo(items: seq<Item>): map<string, JsonValue> {
    map i | i in items :: i.key := Str("x")
  }

  /** Fails on every even prompt; on odd ones it times out unless the batch has one item. */
  const STUBBORN_PROVIDER: Provider := (n, items) =>
    if n % 2 == 0 then Failure("")
    else if |items| > 1 then Failure("timed out")
    else Answer(Echo(items))

  lemma StubbornMessages()
    ensures TimedOut("timed out") && !TimedOut("")
  {
    var s := AsciiLower("timed out");
    assert s == "timed out";
    assert OccursAt(s, "timed out", 0);
  }

  lemma StubbornAnswers(item: Item)
    ensures Read(Answer(Echo([item])), [item]).Ok?
  {
    var items := [item];
    assert item in items;
    assert Echo(items)[item.key] == Str("x");
    assert Trim("x") == "x";
    assert Collect(Echo(items), items, map[]) == Collect(Echo(items), items[1..], map[item.key := "x"]);
  }

  /** The first prompt fails, and the second splits a batch of two or more. */
  lemma StubbornStep(at: nat, items: seq<Item>)
    requires items != [] && at % 2 == 0
    ensures |items| > 1 ==> Translate(STUBBORN_PROVIDER, at, items) == Split(STUBBORN_PROVIDER, at + 2, items)
    ensures |items| == 1 ==> Translate(STUBBORN_PROVIDER, at, items).result.Ok?
                             && Translate(STUBBORN_PROVIDER, at, items).prompts == at + 2
  {
    StubbornMessages();
    assert Read(STUBBORN_PROVIDER(at, items), items) == Err("");
    assert Translate(STUBBORN_PROVIDER, at, items) == Attempts(STUBBORN_PROVIDER, at + 1, items, 1, "");
    if |items| > 1 {
      assert Read(STUBBORN_PROVIDER(at + 1, items), items) == Err("timed out");
    } else {
      StubbornAnswers(items[0]);
      assert items == [items[0]];
    }
  }

  lemma {:induction false} PromptBoundIsTight(at: nat, items: seq<Item>)
    requires items != [] && at % 2 == 0
    ensures Translate(STUBBORN_PROVIDER, at, items).result.Ok?
    ensures Translate(STUBBORN_PROVIDER, at, items).prompts == at + PromptBound(|items|)
    decreases |items|
  {
    hide Attempts;
    StubbornStep(at, items);
    if |items| > 1 {
      var mid := Midpoint(items);
      PromptBoundIsTight(at + 2, items[..mid]);
      PromptBoundIsTight(at + 2 + PromptBound(mid), items[mid..]);
    }
  }
}
