/** `buildTranslationBatches` of `scripts/control-ui-i18n.ts`: a greedy batcher with two limits. */
module TranslationBatches {
  import opened Sequences

  const MAX_BATCH_ITEMS := 20

  datatype Item = Item(cacheKey: string, key: string, text: string, textHash: string)

  /** The reducer of `estimateBatchChars`, from a running total. */
  function EstimateFrom(total: nat, items: seq<Item>): nat
    decreases items
  {
    if items == [] then total
    else EstimateFrom(total + |items[0].key| + |items[0].text| + 8, items[1..])
  }

  function EstimateBatchChars(items: seq<Item>): nat {
    EstimateFrom(2, items)
  }

  /** What the loop adds to `currentChars` over a batch, on top of the initial 2. */
  function ItemChars(items: seq<Item>): nat {
    if items == [] then 0
    else ItemChars(items[..|items|-1]) + EstimateBatchChars([items[|items|-1]])
  }

  function CurrentChars(items: seq<Item>): nat {
    2 + ItemChars(items)
  }

  /** One item always fits; more items need room in both limits. */
  ghost predicate WithinLimits(batch: seq<Item>, budget: real) {
    && 1 <= |batch| <= MAX_BATCH_ITEMS
    && (|batch| >= 2 ==> CurrentChars(batch) as real <= budget)
  }

  ghost predicate Partitions(batches: seq<seq<Item>>, items: seq<Item>, budget: real) {
    Flatten(batches) == items && forall b :: b in batches ==> WithinLimits(b, budget)
  }

  /** `next` could not have started in `batch`. */
  ghost predicate CannotJoin(batch: seq<Item>, next: seq<Item>, budget: real) {
    next != [] && !WithinLimits(batch + [next[0]], budget)
  }

  ghost predicate Greedy(batches: seq<seq<Item>>, budget: real) {
    && (batches != [] ==> batches[0] != [])
    && forall i :: 0 <= i < |batches| - 1 ==> CannotJoin(batches[i], batches[i+1], budget)
  }

  lemma GreedySnoc(batches: seq<seq<Item>>, last: seq<Item>, budget: real)
    requires Greedy(batches, budget) && last != []
    requires batches != [] ==> CannotJoin(batches[|batches|-1], last, budget)
    ensures Greedy(batches + [last], budget)
  {
  }

  lemma {:induction false} ItemCharsConcat(a: seq<Item>, b: seq<Item>)
    ensures ItemChars(a + b) == ItemChars(a) + ItemChars(b)
  {
    if b == [] {
      assert a + b == a;
    } else {
      var front := b[..|b|-1];
      assert (a + b)[..|a + b|-1] == a + front;
      ItemCharsConcat(a, front);
    }
  }

  lemma SingleItemChars(item: Item)
    ensures ItemChars([item]) == EstimateBatchChars([item]) == |item.key| + |item.text| + 10
  {
    var all := [item];
    assert all[1..] == [] && all[..0] == [];
    assert EstimateFrom(2, all) == EstimateFrom(2 + |item.key| + |item.text| + 8, all[1..]);
  }

  lemma {:induction false} EstimateFromTotal(total: nat, items: seq<Item>)
    ensures EstimateFrom(total, items) + 2 * |items| == total + ItemChars(items)
    decreases items
  {
    if items != [] {
      var next := total + |items[0].key| + |items[0].text| + 8;
      EstimateFromTotal(next, items[1..]);
      ItemCharsConcat([items[0]], items[1..]);
      assert items == [items[0]] + items[1..];
      SingleItemChars(items[0]);
    }
  }

  /** The batcher's own count is the stricter one: it charges 2 more per item than the estimate. */
  lemma EstimateBelowCurrent(items: seq<Item>)
    ensures EstimateBatchChars(items) + 2 * |items| == CurrentChars(items)
  {
    EstimateFromTotal(2, items);
  }

  lemma SegmentWithinLimits(a: seq<Item>, b: seq<Item>, c: seq<Item>, budget: real)
    requires WithinLimits(a + b + c, budget) && b != []
    ensures WithinLimits(b, budget)
  {
    ItemCharsConcat(a + b, c);
    ItemCharsConcat(a, b);
  }

  /** An other batch that reaches past the end of a greedy one would contain too much. */
  lemma OtherEndsNoLater(g0: seq<Item>, g1: seq<Item>, rest: seq<Item>, p0: seq<Item>, all: seq<Item>, budget: real)
    requires CannotJoin(g0, g1, budget) && g0 + g1 <= rest
    requires |rest| <= |all| && rest == all[|all| - |rest|..]
    requires p0 <= all && WithinLimits(p0, budget)
    ensures |p0| <= |all| - |rest| + |g0|
  {
    var lead := |all| - |rest|;
    if |p0| > lead + |g0| {
      var longer := g0 + [g1[0]];
      var middle := p0[lead..lead + |longer|];
      forall i | 0 <= i < |longer| ensures middle[i] == longer[i] {
        assert middle[i] == all[lead + i];
        assert rest[i] == (g0 + g1)[i];
      }
      assert middle == longer;
      assert p0 == p0[..lead] + longer + p0[lead + |longer|..];
      SegmentWithinLimits(p0[..lead], longer, p0[lead + |longer|..], budget);
    }
  }

  /** Greedy never needs more batches: wherever the other partition has got to, greedy is as far. */
  lemma {:induction false} GreedyStaysAhead(
    greedy: seq<seq<Item>>, rest: seq<Item>, other: seq<seq<Item>>, all: seq<Item>, budget: real)
    requires Flatten(greedy) == rest && Greedy(greedy, budget)
    requires Partitions(other, all, budget)
    requires |rest| <= |all| && rest == all[|all| - |rest|..]
    ensures |greedy| <= |other|
    decreases |greedy|
  {
    if |greedy| > 1 {
      var g0, g1, p0 := greedy[0], greedy[1], other[0];
      assert CannotJoin(greedy[0], greedy[0+1], budget);
      assert Flatten(greedy[1..]) == g1 + Flatten(greedy[1..][1..]);
      assert g0 + g1 <= rest;
      assert p0 in other && p0 <= all;
      OtherEndsNoLater(g0, g1, rest, p0, all, budget);
      var tail := greedy[1..];
      forall i | 0 <= i < |tail| - 1 ensures CannotJoin(tail[i], tail[i+1], budget) {
        assert CannotJoin(greedy[i+1], greedy[(i+1)+1], budget);
      }
      assert Flatten(tail) == rest[|g0|..];
      assert Flatten(other[1..]) == all[|p0|..];
      GreedyStaysAhead(tail, rest[|g0|..], other[1..], all[|p0|..], budget);
    } else if |greedy| == 1 {
      assert Flatten(greedy) == greedy[0] + Flatten(greedy[1..]);
    }
  }

  /** The open batch of the loop, and what relates it to the batches already pushed. */
  ghost predicate Open(batches: seq<seq<Item>>, current: seq<Item>, seen: seq<Item>, budget: real) {
    && Flatten(batches) + current == seen
    && (forall b :: b in batches ==> WithinLimits(b, budget))
    && Greedy(batches, budget)
    && (current == [] ==> seen == [] && batches == [])
    && (current != [] ==> WithinLimits(current, budget))
    && (batches != [] ==> CannotJoin(batches[|batches|-1], current, budget))
  }

  lemma ExtendOpen(batches: seq<seq<Item>>, current: seq<Item>, seen: seq<Item>, item: Item, budget: real)
    requires Open(batches, current, seen, budget) && WithinLimits(current + [item], budget)
    ensures Open(batches, current + [item], seen + [item], budget)
  {
    hide WithinLimits, Greedy;
  }

  lemma CloseOpen(batches: seq<seq<Item>>, current: seq<Item>, seen: seq<Item>, item: Item, budget: real)
    requires Open(batches, current, seen, budget) && current != []
    requires !WithinLimits(current + [item], budget)
    ensures Open(batches + [current], [item], seen + [item], budget)
  {
    hide Greedy, ItemChars;
    FlattenSnoc(batches, current);
    GreedySnoc(batches, current, budget);
    assert WithinLimits([item], budget);
  }

  /** One round of the loop: the item joins the open batch, or closes it and opens its own. */
  lemma OpenStep(batches: seq<seq<Item>>, current: seq<Item>, items: seq<Item>, i: nat, budget: real)
    requires i < |items| && Open(batches, current, items[..i], budget)
    ensures WithinLimits(current + [items[i]], budget) ==> Open(batches, current + [items[i]], items[..i + 1], budget)
    ensures !WithinLimits(current + [items[i]], budget) ==>
              current != [] && Open(batches + [current], [] + [items[i]], items[..i + 1], budget)
  {
    var item := items[i];
    assert items[..i + 1] == items[..i] + [item];
    if WithinLimits(current + [item], budget) {
      ExtendOpen(batches, current, items[..i], item, budget);
    } else {
      OneFits(current, item, budget);
      CloseOpen(batches, current, items[..i], item, budget);
      assert [] + [item] == [item];
    }
  }

  lemma NothingOpen(items: seq<Item>, budget: real)
    ensures Open([], [], items[..0], budget) && CurrentChars([]) == 2
  {
  }

  lemma OneFits(current: seq<Item>, item: Item, budget: real)
    ensures !WithinLimits(current + [item], budget) ==> current != []
  {
  }

  lemma ItemAdds(current: seq<Item>, item: Item)
    ensures CurrentChars(current + [item]) == CurrentChars(current) + EstimateBatchChars([item])
    ensures CurrentChars([]) == 2 && CurrentChars([item]) == 2 + EstimateBatchChars([item])
  {
    ItemCharsConcat(current, [item]);
    SingleItemChars(item);
  }

  lemma FitsIff(current: seq<Item>, item: Item, budget: real)
    ensures WithinLimits(current + [item], budget) <==>
      |current| < MAX_BATCH_ITEMS
      && (|current| > 0 ==> (CurrentChars(current) + EstimateBatchChars([item])) as real <= budget)
  {
    ItemAdds(current, item);
  }

  /** The limits in numbers: at most 20 items, and from two on the estimate plus two characters an item in the budget. */
  lemma LimitsSpelledOut(batch: seq<Item>, item: Item, budget: real)
    ensures WithinLimits(batch, budget) <==>
      1 <= |batch| <= 20 && (|batch| == 1 || (EstimateBatchChars(batch) + 2 * |batch|) as real <= budget)
    ensures EstimateBatchChars([]) == 2
    ensures EstimateBatchChars(batch + [item]) == EstimateBatchChars(batch) + |item.key| + |item.text| + 8
  {
    EstimateBelowCurrent(batch);
    EstimateBelowCurrent(batch + [item]);
    ItemAdds(batch, item);
    SingleItemChars(item);
  }

  lemma GreedyIsBest(batches: seq<seq<Item>>, items: seq<Item>, budget: real)
    requires Partitions(batches, items, budget) && Greedy(batches, budget) && Flatten(batches) == items
    ensures forall b :: b in batches && |b| >= 2 ==> EstimateBatchChars(b) as real <= budget
    ensures forall other :: Partitions(other, items, budget) ==> |batches| <= |other|
  {
    hide Greedy, Flatten, ItemChars, EstimateBatchChars;
    forall b | b in batches && |b| >= 2 ensures EstimateBatchChars(b) as real <= budget {
      EstimateBelowCurrent(b);
    }
    forall other | Partitions(other, items, budget) ensures |batches| <= |other| {
      GreedyStaysAhead(batches, items, other, items, budget);
    }
  }

  /** The last batch is pushed when the items are used up. */
  lemma FinishOpen(batches: seq<seq<Item>>, current: seq<Item>, items: seq<Item>, budget: real)
    requires Open(batches, current, items, budget)
    ensures var all := if current == [] then batches else batches + [current];
      && Partitions(all, items, budget) && Greedy(all, budget)
      && (forall b :: b in all && |b| >= 2 ==> EstimateBatchChars(b) as real <= budget)
      && forall other :: Partitions(other, items, budget) ==> |all| <= |other|
  {
    hide Greedy, CannotJoin, CurrentChars;
    if current != [] {
      FlattenSnoc(batches, current);
      GreedySnoc(batches, current, budget);
      GreedyIsBest(batches + [current], items, budget);
    } else {
      GreedyIsBest(batches, items, budget);
    }
  }

  lemma FirstNoLonger(a: seq<seq<Item>>, b: seq<seq<Item>>, items: seq<Item>, budget: real)
    requires Partitions(a, items, budget) && Greedy(a, budget) && Partitions(b, items, budget)
    requires a != [] && b != []
    ensures b[0] <= items && |b[0]| <= |a[0]|
  {
    assert b[0] in b;
    if |a| == 1 {
      assert Flatten(a) == a[0] + Flatten(a[1..]);
    } else {
      assert CannotJoin(a[0], a[0 + 1], budget);
      assert Flatten(a[1..]) == a[1] + Flatten(a[1..][1..]);
      OtherEndsNoLater(a[0], a[1], items, b[0], items, budget);
    }
  }

  lemma GreedyTail(a: seq<seq<Item>>, items: seq<Item>, budget: real)
    requires Partitions(a, items, budget) && Greedy(a, budget) && a != []
    ensures a[0] <= items && a[0] != []
    ensures Partitions(a[1..], items[|a[0]|..], budget) && Greedy(a[1..], budget)
  {
    hide WithinLimits;
    var tail := a[1..];
    assert a[0] in a;
    forall i | 0 <= i < |tail| - 1 ensures CannotJoin(tail[i], tail[i+1], budget) {
      assert CannotJoin(a[i+1], a[(i+1)+1], budget);
    }
    if tail != [] {
      assert CannotJoin(a[0], a[0 + 1], budget);
    }
  }

  /** There is one greedy partition. */
  lemma {:induction false} GreedyUnique(a: seq<seq<Item>>, b: seq<seq<Item>>, items: seq<Item>, budget: real)
    requires Partitions(a, items, budget) && Greedy(a, budget)
    requires Partitions(b, items, budget) && Greedy(b, budget)
    ensures a == b
    decreases |a|
  {
    if a != [] && b != [] {
      FirstNoLonger(a, b, items, budget);
      FirstNoLonger(b, a, items, budget);
      GreedyTail(a, items, budget);
      GreedyTail(b, items, budget);
      hide Partitions, Greedy;
      GreedyUnique(a[1..], b[1..], items[|a[0]|..], budget);
      assert a == [a[0]] + a[1..] && b == [b[0]] + b[1..];
    } else {
      NoBatches(a, items, budget);
      NoBatches(b, items, budget);
    }
  }

  lemma NoBatches(a: seq<seq<Item>>, items: seq<Item>, budget: real)
    requires Partitions(a, items, budget)
    ensures a == [] <==> items == []
  {
    if a != [] { assert a[0] in a; }
  }

  method BuildTranslationBatches(items: seq<Item>, budget: real) returns (batches: seq<seq<Item>>)
    ensures Partitions(batches, items, budget)
    ensures Greedy(batches, budget)
    ensures forall b :: b in batches && |b| >= 2 ==> EstimateBatchChars(b) as real <= budget
    ensures forall other :: Partitions(other, items, budget) ==> |batches| <= |other|
  {
    batches := [];
    var current: seq<Item> := [];
    var currentChars := 2;
    NothingOpen(items, budget);
    hide *;
    for i := 0 to |items|
      invariant Open(batches, current, items[..i], budget)
      invariant currentChars == CurrentChars(current)
    {
      var item := items[i];
      var itemChars := EstimateBatchChars([item]);
      var wouldOverflow := |current| > 0 && (currentChars + itemChars) as real > budget;
      var reachedMaxItems := |current| >= MAX_BATCH_ITEMS;
      OpenStep(batches, current, items, i, budget);
      ItemAdds(current, item);
      FitsIff(current, item, budget);
      if wouldOverflow || reachedMaxItems {
        batches := batches + [current];
        current := [];
        currentChars := 2;
      }
      current := current + [item];
      currentChars := currentChars + itemChars;
    }
    assert items[..|items|] == items;
    FinishOpen(batches, current, items, budget);
    if |current| > 0 {
      batches := batches + [current];
    }
  }
}
