/** What `translateBatch` does with each reply: which messages are timeouts, which batches split, which are retried. */
module TranslationTimeouts {
  import opened Results
  import opened Text
  import opened TranslationBatches
  import opened TranslationRetry

  /** "timed out", in any mixture of cases. */
  predicate AnyCase(c: string) {
    |c| == 9 && forall k :: 0 <= k < 9 ==> c[k] == "timed out"[k] || c[k] == "TIMED OUT"[k]
  }

  ghost predicate NamesTimeout(message: string) {
    exists a, c, b :: message == a + c + b && AnyCase(c)
  }

  lemma LowerAnyCase(c: string)
    ensures AsciiLower(c) == "timed out" <==> AnyCase(c)
  {
    if AsciiLower(c) == "timed out" {
      forall k | 0 <= k < 9 ensures c[k] == "timed out"[k] || c[k] == "TIMED OUT"[k] {
        assert AsciiLower(c)[k] == "timed out"[k];
      }
    }
  }

  /** Lower-casing commutes with cutting a message. */
  lemma LowerParts(a: string, c: string, b: string)
    ensures AsciiLower(a + c + b) == AsciiLower(a) + AsciiLower(c) + AsciiLower(b)
  {
  }

  /** A message is a timeout exactly if it contains "timed out" in any case, wherever. */
  lemma TimedOutIff(message: string)
    ensures TimedOut(message) <==> NamesTimeout(message)
  {
    var lower := AsciiLower(message);
    if TimedOut(message) {
      var i :| 0 <= i <= |lower| && OccursAt(lower, "timed out", i);
      assert |lower[i..]| >= 9;
      var a, c, b := message[..i], message[i..i+9], message[i+9..];
      assert message == a + c + b;
      LowerParts(a, c, b);
      assert lower[i..][..9] == "timed out" && lower[i..][..9] == AsciiLower(c);
      LowerAnyCase(c);
    }
    if NamesTimeout(message) {
      var a, c, b :| message == a + c + b && AnyCase(c);
      LowerParts(a, c, b);
      LowerAnyCase(c);
      assert lower[|a|..] == "timed out" + AsciiLower(b);
      assert OccursAt(lower, "timed out", |a|);
    }
  }

  predicate Translated(parsed: map<string, JsonValue>, item: Item) {
    item.key in parsed && parsed[item.key].Str? && Trim(parsed[item.key].text) != ""
  }

  lemma {:induction false} CollectExact(parsed: map<string, JsonValue>, items: seq<Item>, found: Translations)
    ensures match Collect(parsed, items, found)
      case Ok(r) =>
        (forall i :: i in items ==> Translated(parsed, i))
        && r.Keys == found.Keys + KeysOf(items)
        && forall k :: k in r ==> r[k] == if k in KeysOf(items) then parsed[k].text else found[k]
      case Err(message) =>
        exists n :: 0 <= n < |items| && !Translated(parsed, items[n]) && message == "missing translation for " + items[n].key
                    && forall m :: 0 <= m < n ==> Translated(parsed, items[m])
    decreases items
  {
    hide Trim;
    if items != [] {
      var first, rest := items[0], items[1..];
      assert items == [first] + rest;
      KeysOfConcat([first], rest);
      assert KeysOf([first]) == {first.key} by { assert [first][0] == first; }
      if Translated(parsed, first) {
        CollectExact(parsed, rest, found[first.key := parsed[first.key].text]);
        var collected := Collect(parsed, items, found);
        if collected.Err? {
          var n :| 0 <= n < |rest| && !Translated(parsed, rest[n])
                   && collected.error == "missing translation for " + rest[n].key
                   && forall m :: 0 <= m < n ==> Translated(parsed, rest[m]);
          assert items[n + 1] == rest[n];
          forall m | 0 <= m < n + 1 ensures Translated(parsed, items[m]) {
            assert m > 0 ==> items[m] == rest[m - 1];
          }
        }
      } else {
        assert !Translated(parsed, items[0]);
      }
    }
  }

  /**
   * A failed prompt gives its own message. A reply is accepted exactly if it has a non-blank text for every item, and
   * gives just those texts; otherwise the first item without one is named.
   */
  lemma ReadExact(outcome: Outcome, items: seq<Item>)
    ensures match outcome
      case Failure(message) => Read(outcome, items) == Err(message)
      case Answer(parsed) =>
        match Read(outcome, items)
        case Ok(r) =>
          (forall i :: i in items ==> Translated(parsed, i))
          && r.Keys == KeysOf(items) && forall k :: k in r ==> r[k] == parsed[k].text
        case Err(message) =>
          exists n :: 0 <= n < |items| && !Translated(parsed, items[n]) && message == "missing translation for " + items[n].key
                      && forall m :: 0 <= m < n ==> Translated(parsed, items[m])
  {
    if outcome.Answer? { CollectExact(outcome.parsed, items, map[]); }
    hide Collect, Translated, KeysOf;
  }

  /** The two halves, the first one longer if the number is odd, one after the other; the first failure ends the run. */
  ghost predicate HalfByHalf(provider: Provider, at: nat, items: seq<Item>, run: Run) {
    var mid := (|items| + 1) / 2;
    var left := Translate(provider, at, items[..mid]);
    var right := Translate(provider, left.prompts, items[mid..]);
    if left.result.Err? then run == left
    else if right.result.Err? then run == right
    else run == Run(Ok(left.result.value + right.result.value), right.prompts)
  }

  /**
   * The whole run by its first replies. An accepted reply ends it. A timeout of two or more items splits the batch and
   * a timeout of one item fails at once. Any other error prompts the same batch once more, and then the second reply
   * decides: a timeout splits again, anything else fails.
   */
  lemma TranslateSpelledOut(provider: Provider, at: nat, items: seq<Item>)
    ensures var run := Translate(provider, at, items);
      match Read(provider(at, items), items)
      case Ok(found) => run == Run(Ok(found), at + 1)
      case Err(first) =>
        if NamesTimeout(first) then
          if |items| > 1 then HalfByHalf(provider, at + 1, items, run) else run == Run(Err(first), at + 1)
        else match Read(provider(at + 1, items), items)
          case Ok(found) => run == Run(Ok(found), at + 2)
          case Err(second) =>
            if NamesTimeout(second) && |items| > 1 then HalfByHalf(provider, at + 2, items, run)
            else run == Run(Err(second), at + 2)
  {
    var reply, again := Read(provider(at, items), items), Read(provider(at + 1, items), items);
    if reply.Err? { TimedOutIff(reply.error); }
    if again.Err? { TimedOutIff(again.error); }
    OneAttempt(provider, at, items, 0, "translation failed");
    if |items| > 1 {
      SplitIsHalf(provider, at + 1, items);
      SplitIsHalf(provider, at + 2, items);
    }
    hide Read, TimedOut, NamesTimeout, HalfByHalf, Attempts, Split;
    if reply.Err? && !TimedOut(reply.error) {
      OneAttempt(provider, at + 1, items, 1, reply.error);
      if again.Err? { NoAttempt(provider, at + 2, items, again.error); }
    }
  }

  lemma OneAttempt(provider: Provider, at: nat, items: seq<Item>, attempt: nat, lastError: string)
    requires attempt < 2
    ensures Attempts(provider, at, items, attempt, lastError) ==
      match Read(provider(at, items), items)
      case Ok(found) => Run(Ok(found), at + 1)
      case Err(message) =>
        if TimedOut(message) && |items| > 1 then Split(provider, at + 1, items)
        else if TimedOut(message) then Run(Err(message), at + 1)
        else Attempts(provider, at + 1, items, attempt + 1, message)
  {
    hide Read, TimedOut, Split;
  }

  lemma NoAttempt(provider: Provider, at: nat, items: seq<Item>, lastError: string)
    ensures Attempts(provider, at, items, 2, lastError) == Run(Err(lastError), at)
  {
  }

  lemma SplitIsHalf(provider: Provider, at: nat, items: seq<Item>)
    requires |items| > 1
    ensures HalfByHalf(provider, at, items, Split(provider, at, items))
  {
    hide Attempts;
    assert Midpoint(items) == (|items| + 1) / 2;
  }

  /** A prompt that fails with any message around "timed out", in any case, splits a batch of two or more. */
  lemma TimeoutSplits(provider: Provider, at: nat, items: seq<Item>, a: string, c: string, b: string)
    requires |items| > 1 && AnyCase(c) && provider(at, items) == Failure(a + c + b)
    ensures HalfByHalf(provider, at + 1, items, Translate(provider, at, items))
  {
    assert NamesTimeout(a + c + b);
    TranslateSpelledOut(provider, at, items);
    hide NamesTimeout, Translate, HalfByHalf;
  }

  /** A message without that stretch prompts the same batch again. */
  lemma OtherErrorRetries(provider: Provider, at: nat, items: seq<Item>, message: string)
    requires provider(at, items) == Failure(message)
    requires forall a, c, b :: message == a + c + b ==> !AnyCase(c)
    ensures var run, again := Translate(provider, at, items), Read(provider(at + 1, items), items);
      && run.prompts >= at + 2
      && (again.Ok? ==> run == Run(again, at + 2))
      && (again.Err? && (!NamesTimeout(again.error) || |items| <= 1) ==> run == Run(again, at + 2))
  {
    TranslateSpelledOut(provider, at, items);
    TranslateBackward(provider, at + 2, items);
    assert !NamesTimeout(message);
    hide NamesTimeout, Translate;
  }

  /** Splitting never runs the prompt counter back. */
  lemma TranslateBackward(provider: Provider, at: nat, items: seq<Item>)
    ensures forall run :: |items| > 1 && HalfByHalf(provider, at, items, run) ==> run.prompts >= at
  {
    if |items| > 1 {
      var mid := (|items| + 1) / 2;
      TimeoutOnlyForOneItem(provider, at, items[..mid], 0, "translation failed");
      var left := Translate(provider, at, items[..mid]);
      TimeoutOnlyForOneItem(provider, left.prompts, items[mid..], 0, "translation failed");
      hide Attempts;
    }
  }
}
