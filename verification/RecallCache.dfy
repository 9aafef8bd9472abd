/**
 * The recall cache of `extensions/active-memory/index.ts`: an insertion-ordered map with
 * expiry and a capacity, updated in place, against what each operation should do to it.
 */
module RecallCache {
  import opened Results

  const MAX_CACHE_ENTRIES := 1000

  /** `ActiveRecallResult` */
  datatype Recall =
    | Unanswered(status: string, elapsedMs: int, summary: Option<string>)
    | Answered(elapsedMs: int, rawReply: string, text: string)

  datatype Slot = Slot(key: string, expiresAt: int, result: Recall)

  /** A `Map` in insertion order. */
  type Slots = seq<Slot>

  function Find(slots: Slots, key: string): (r: Option<Slot>)
    ensures r.Some? ==> r.value in slots && r.value.key == key
  {
    if slots == [] then None
    else if slots[0].key == key then Some(slots[0])
    else Find(slots[1..], key)
  }

  lemma {:induction false} FindAbsent(slots: Slots, key: string, i: nat)
    requires Find(slots, key).None? && i < |slots|
    ensures slots[i].key != key
  {
    if i > 0 {
      FindAbsent(slots[1..], key, i - 1);
    }
  }

  lemma FoundIfMember(slots: Slots, s: Slot)
    ensures s in slots ==> Find(slots, s.key).Some?
  {
    if s in slots && Find(slots, s.key).None? {
      var i :| 0 <= i < |slots| && slots[i] == s;
      FindAbsent(slots, s.key, i);
    }
  }

  /** Deleting entries from an insertion-ordered map keeps the others in order. */
  function Filter(slots: Slots, keep: Slot -> bool): Slots {
    if slots == [] then []
    else
      Filter(slots[..|slots|-1], keep)
      + (if keep(slots[|slots|-1]) then [slots[|slots|-1]] else [])
  }

  function Other(key: string): Slot -> bool {
    (s: Slot) => s.key != key
  }

  function Unexpired(now: int): Slot -> bool {
    (s: Slot) => s.expiresAt > now
  }

  function Remove(slots: Slots, key: string): Slots {
    Filter(slots, Other(key))
  }

  function Swept(slots: Slots, now: int): Slots {
    Filter(slots, Unexpired(now))
  }

  lemma {:induction false} FilterMember(slots: Slots, keep: Slot -> bool, s: Slot)
    ensures s in Filter(slots, keep) <==> s in slots && keep(s)
  {
    if slots != [] {
      FilterMember(slots[..|slots|-1], keep, s);
      assert slots == slots[..|slots|-1] + [slots[|slots|-1]];
    }
  }

  lemma {:induction false} FilterConcat(a: Slots, b: Slots, keep: Slot -> bool)
    ensures Filter(a + b, keep) == Filter(a, keep) + Filter(b, keep)
  {
    if b == [] {
      assert a + b == a;
    } else {
      FilterConcat(a, b[..|b|-1], keep);
      assert (a + b)[..|a + b|-1] == a + b[..|b|-1];
    }
  }

  lemma {:induction false} FilterNothing(slots: Slots, keep: Slot -> bool)
    requires forall i :: 0 <= i < |slots| ==> keep(slots[i])
    ensures Filter(slots, keep) == slots
  {
    if slots != [] {
      FilterNothing(slots[..|slots|-1], keep);
    }
  }

  /** The eviction loop: it stops at the capacity, or at an empty oldest key. */
  function Evicted(slots: Slots): (r: Slots)
    ensures |r| <= MAX_CACHE_ENTRIES || r[0].key == ""
    ensures |r| <= |slots| && r == slots[|slots| - |r|..]
    ensures r != slots ==> |r| >= MAX_CACHE_ENTRIES
  {
    if |slots| > MAX_CACHE_ENTRIES && slots[0].key != "" then Evicted(slots[1..]) else slots
  }

  function AfterPut(slots: Slots, key: string, result: Recall, ttlMs: int, sweepAt: int, now: int): Slots {
    Evicted(Remove(Swept(slots, sweepAt), key) + [Slot(key, now + ttlMs, result)])
  }

  function AfterGet(slots: Slots, key: string, now: int): Slots {
    var cached := Find(slots, key);
    if cached.Some? && cached.value.expiresAt <= now then Remove(slots, key) else slots
  }

  function GetResult(slots: Slots, key: string, now: int): Option<Recall> {
    var cached := Find(slots, key);
    if cached.Some? && cached.value.expiresAt > now then Some(cached.value.result) else None
  }

  ghost predicate DistinctKeys(slots: Slots) {
    forall i, j :: 0 <= i < j < |slots| ==> slots[i].key != slots[j].key
  }

  lemma RemoveAbsent(slots: Slots, key: string)
    requires forall i :: 0 <= i < |slots| ==> slots[i].key != key
    ensures Remove(slots, key) == slots
  {
    FilterNothing(slots, Other(key));
  }

  class Cache {
    var slots: Slots

    ghost predicate Valid()
      reads this
    {
      DistinctKeys(slots)
    }

    constructor ()
      ensures Valid() && slots == []
    {
      slots := [];
    }

    method GetCachedResult(key: string, now: int) returns (r: Option<Recall>)
      requires Valid()
      modifies this
      ensures Valid()
      ensures slots == AfterGet(old(slots), key, now) && r == GetResult(old(slots), key, now)
    {
      var cached := Find(slots, key);
      if cached.None? { return None; }
      if cached.value.expiresAt <= now {
        FilterKeepsDistinct(slots, Other(key));
        slots := Remove(slots, key);
        return None;
      }
      return Some(cached.value.result);
    }

    method SweepExpiredCacheEntries(now: int)
      requires Valid()
      modifies this
      ensures Valid() && slots == Swept(old(slots), now)
    {
      hide DistinctKeys, Filter;
      var all := slots;
      SweepStart(all, now);
      for i := 0 to |all|
        invariant slots == Swept(all[..i], now) + all[i..]
      {
        SweepStep(all, i, now);
        if all[i].expiresAt <= now {
          slots := Remove(slots, all[i].key);
        }
      }
      assert all[..|all|] == all;
      assert slots == Swept(all, now);
      FilterKeepsDistinct(all, Unexpired(now));
    }

    /** `sweepAt` and `now` are the two clock readings of one call. */
    method SetCachedResult(key: string, result: Recall, ttlMs: int, sweepAt: int, now: int)
      requires Valid()
      modifies this
      ensures Valid()
      ensures slots == AfterPut(old(slots), key, result, ttlMs, sweepAt, now)
    {
      SweepExpiredCacheEntries(sweepAt);
      ghost var swept := slots;
      PutKeepsDistinct(swept, Slot(key, now + ttlMs, result));
      if Find(slots, key).Some? {
        slots := Remove(slots, key);
      } else {
        forall i | 0 <= i < |slots| ensures slots[i].key != key { FindAbsent(slots, key, i); }
        RemoveAbsent(slots, key);
      }
      slots := slots + [Slot(key, now + ttlMs, result)];
      EvictOldest();
    }

    /** The `while` loop of `setCachedResult`. */
    method EvictOldest()
      requires Valid()
      modifies this
      ensures Valid() && slots == Evicted(old(slots))
    {
      hide DistinctKeys;
      ghost var full := slots;
      while |slots| > MAX_CACHE_ENTRIES
        invariant Evicted(full) == Evicted(slots)
        invariant DistinctKeys(slots)
      {
        var oldestKey := slots[0].key;
        if oldestKey == "" { break; }
        FirstRemoved(slots);
        slots := Remove(slots, oldestKey);
      }
    }
  }

  lemma {:induction false} FilterKeepsDistinct(slots: Slots, keep: Slot -> bool)
    requires DistinctKeys(slots)
    ensures DistinctKeys(Filter(slots, keep))
  {
    if slots != [] {
      var front, last := slots[..|slots|-1], slots[|slots|-1];
      FilterKeepsDistinct(front, keep);
      var kept := Filter(front, keep);
      forall i | 0 <= i < |kept| ensures kept[i].key != last.key {
        FilterMember(front, keep, kept[i]);
        var j :| 0 <= j < |front| && front[j] == kept[i];
        assert slots[j].key != slots[|slots|-1].key;
      }
    }
  }

  lemma PutKeepsDistinct(slots: Slots, slot: Slot)
    requires DistinctKeys(slots)
    ensures DistinctKeys(Remove(slots, slot.key) + [slot])
  {
    var keep := Other(slot.key);
    var kept := Remove(slots, slot.key);
    FilterKeepsDistinct(slots, keep);
    forall i | 0 <= i < |kept| ensures kept[i].key != slot.key {
      FilterMember(slots, keep, kept[i]);
    }
  }

  lemma TailDistinct(slots: Slots)
    requires DistinctKeys(slots) && slots != []
    ensures DistinctKeys(slots[1..])
    ensures forall i :: 0 < i < |slots| ==> slots[i].key != slots[0].key
  {
    forall i, j | 0 <= i < j < |slots[1..]| ensures slots[1..][i].key != slots[1..][j].key {
      assert slots[i + 1].key != slots[j + 1].key;
    }
  }

  lemma FirstRemoved(slots: Slots)
    requires DistinctKeys(slots) && slots != []
    ensures Remove(slots, slots[0].key) == slots[1..] && DistinctKeys(slots[1..])
  {
    TailDistinct(slots);
    var first, rest, keep := slots[..1], slots[1..], Other(slots[0].key);
    hide DistinctKeys;
    forall i | 0 <= i < |rest| ensures keep(rest[i]) {
      assert rest[i] == slots[i + 1];
    }
    FilterFirst(slots);
    hide Filter;
    assert slots == first + rest;
    FilterConcat(first, rest, keep);
    FilterNothing(rest, keep);
    assert [] + rest == rest;
  }

  lemma FilterFirst(slots: Slots)
    requires slots != []
    ensures Filter(slots[..1], Other(slots[0].key)) == []
  {
    assert slots[..1][..0] == [];
  }

  lemma SweepStart(all: Slots, now: int)
    ensures Swept(all[..0], now) + all[0..] == all
  {
  }

  /** Deleting the i-th entry while iterating touches neither the kept ones nor those to come. */
  lemma DeleteAt(all: Slots, i: nat, kept: Slots)
    requires DistinctKeys(all) && i < |all|
    requires forall s :: s in kept ==> s in all[..i]
    ensures Remove(kept + all[i..], all[i].key) == kept + all[i+1..]
  {
    var here, rest, keep := [all[i]], all[i+1..], Other(all[i].key);
    forall j | 0 <= j < |kept| ensures keep(kept[j]) {
      assert kept[j] in all[..i];
      var k :| 0 <= k < i && all[k] == kept[j];
      assert all[k].key != all[i].key;
    }
    forall j | 0 <= j < |rest| ensures keep(rest[j]) {
      assert all[i].key != all[i + 1 + j].key;
    }
    assert Filter(here, keep) == [];
    hide Filter;
    assert all[i..] == here + rest;
    FilterConcat(kept, all[i..], keep);
    FilterConcat(here, rest, keep);
    FilterNothing(kept, keep);
    FilterNothing(rest, keep);
    assert [] + rest == rest;
  }

  lemma SweepStep(all: Slots, i: nat, now: int)
    requires DistinctKeys(all) && i < |all|
    ensures var before := Swept(all[..i], now) + all[i..];
      Swept(all[..i+1], now) + all[i+1..] ==
        if all[i].expiresAt <= now then Remove(before, all[i].key) else before
  {
    hide DistinctKeys;
    assert all[..i+1][..i] == all[..i];
    var kept := Swept(all[..i], now);
    assert Swept(all[..i+1], now) == kept + (if all[i].expiresAt > now then [all[i]] else []);
    hide Filter;
    if all[i].expiresAt <= now {
      forall s | s in kept ensures s in all[..i] {
        FilterMember(all[..i], Unexpired(now), s);
      }
      DeleteAt(all, i, kept);
      assert kept + [] == kept;
    } else {
      assert all[i..] == [all[i]] + all[i+1..];
      assert kept + [all[i]] + all[i+1..] == kept + ([all[i]] + all[i+1..]);
    }
  }

  // ----- whole runs -----

  datatype Op =
    | Put(key: string, result: Recall, ttlMs: int, sweepAt: int, now: int)
    | Get(key: string, now: int)

  function Apply(slots: Slots, op: Op): Slots {
    match op
    case Put(key, result, ttlMs, sweepAt, now) => AfterPut(slots, key, result, ttlMs, sweepAt, now)
    case Get(key, now) => AfterGet(slots, key, now)
  }

  /** The cache after a sequence of operations on an empty one. */
  function Run(ops: seq<Op>): Slots {
    if ops == [] then [] else Apply(Run(ops[..|ops|-1]), ops[|ops|-1])
  }

  /** The position of the last put for a key, or -1. */
  function LastPut(ops: seq<Op>, key: string): (i: int)
    ensures -1 <= i < |ops|
    ensures i >= 0 ==> ops[i].Put? && ops[i].key == key
    ensures forall j :: i < j < |ops| ==> !(ops[j].Put? && ops[j].key == key)
  {
    if ops == [] then -1
    else
      var last := |ops| - 1;
      if ops[last].Put? && ops[last].key == key then last else LastPut(ops[..last], key)
  }

  /** The slot holds what the last put for its key stored. */
  ghost predicate FromLastPut(ops: seq<Op>, slot: Slot) {
    var i := LastPut(ops, slot.key);
    i >= 0 && slot == Slot(slot.key, ops[i].now + ops[i].ttlMs, ops[i].result)
  }

  /** Slots stand in the order of the last puts of their keys. */
  ghost predicate OrderedBy(ops: seq<Op>, slots: Slots) {
    forall i, j :: 0 <= i < j < |slots| ==> LastPut(ops, slots[i].key) < LastPut(ops, slots[j].key)
  }

  ghost predicate Refines(ops: seq<Op>, slots: Slots) {
    OrderedBy(ops, slots) && forall s :: s in slots ==> FromLastPut(ops, s)
  }

  lemma LastPutSnoc(ops: seq<Op>, op: Op, key: string)
    ensures LastPut(ops + [op], key) == if op.Put? && op.key == key then |ops| else LastPut(ops, key)
  {
    assert (ops + [op])[..|ops|] == ops;
  }

  lemma {:induction false} FilterKeepsOrder(ops: seq<Op>, slots: Slots, keep: Slot -> bool)
    requires OrderedBy(ops, slots)
    ensures OrderedBy(ops, Filter(slots, keep))
  {
    hide LastPut;
    if slots != [] {
      var front, last := slots[..|slots|-1], slots[|slots|-1];
      FilterKeepsOrder(ops, front, keep);
      var kept := Filter(front, keep);
      forall i | 0 <= i < |kept| ensures LastPut(ops, kept[i].key) < LastPut(ops, last.key) {
        FilterMember(front, keep, kept[i]);
        var j :| 0 <= j < |front| && front[j] == kept[i];
      }
    }
  }

  /** The list a put builds before evicting. */
  function Refilled(slots: Slots, op: Op): Slots
    requires op.Put?
  {
    Remove(Swept(slots, op.sweepAt), op.key) + [Slot(op.key, op.now + op.ttlMs, op.result)]
  }

  lemma KeptMember(slots: Slots, op: Op, s: Slot)
    requires op.Put?
    ensures s in Remove(Swept(slots, op.sweepAt), op.key) <==> s in slots && s.expiresAt > op.sweepAt && s.key != op.key
  {
    FilterMember(Swept(slots, op.sweepAt), Other(op.key), s);
    FilterMember(slots, Unexpired(op.sweepAt), s);
  }

  lemma RefilledRefines(ops: seq<Op>, slots: Slots, op: Op)
    requires Refines(ops, slots) && op.Put?
    ensures Refines(ops + [op], Refilled(slots, op))
  {
    hide LastPut, Filter;
    var full := Refilled(slots, op);
    var kept := Remove(Swept(slots, op.sweepAt), op.key);
    FilterKeepsOrder(ops, slots, Unexpired(op.sweepAt));
    FilterKeepsOrder(ops, Swept(slots, op.sweepAt), Other(op.key));
    LastPutSnoc(ops, op, op.key);
    forall i | 0 <= i < |kept|
      ensures kept[i] in slots && LastPut(ops + [op], kept[i].key) == LastPut(ops, kept[i].key)
    {
      KeptMember(slots, op, kept[i]);
      LastPutSnoc(ops, op, kept[i].key);
    }
    forall s | s in full ensures FromLastPut(ops + [op], s) {
      if s in kept {
        assert FromLastPut(ops, s);
      }
    }
  }

  lemma GetRefines(ops: seq<Op>, slots: Slots, op: Op)
    requires Refines(ops, slots) && op.Get?
    ensures Refines(ops + [op], AfterGet(slots, op.key, op.now))
  {
    hide LastPut, Filter;
    FilterKeepsOrder(ops, slots, Other(op.key));
    var after := AfterGet(slots, op.key, op.now);
    forall i | 0 <= i < |after|
      ensures after[i] in slots && LastPut(ops + [op], after[i].key) == LastPut(ops, after[i].key)
    {
      FilterMember(slots, Other(op.key), after[i]);
      LastPutSnoc(ops, op, after[i].key);
    }
    forall s | s in after ensures FromLastPut(ops + [op], s) {
      assert FromLastPut(ops, s);
    }
  }

  lemma {:induction false} RunRefines(ops: seq<Op>)
    ensures Refines(ops, Run(ops))
  {
    hide LastPut, Refilled, AfterGet;
    if ops != [] {
      var front, op := ops[..|ops|-1], ops[|ops|-1];
      assert ops == front + [op];
      RunRefines(front);
      match op {
        case Put(_, _, _, _, _) =>
          RefilledRefines(front, Run(front), op);
          SuffixRefines(ops, Refilled(Run(front), op), Evicted(Refilled(Run(front), op)));
          PutIsEvicted(Run(front), op);
        case Get(_, _) => GetRefines(front, Run(front), op);
      }
    }
  }

  lemma PutIsEvicted(slots: Slots, op: Op)
    requires op.Put?
    ensures Apply(slots, op) == Evicted(Refilled(slots, op))
  {
  }

  lemma SuffixRefines(ops: seq<Op>, slots: Slots, tail: Slots)
    requires Refines(ops, slots) && |tail| <= |slots| && tail == slots[|slots| - |tail|..]
    ensures Refines(ops, tail)
  {
  }

  lemma OrderedIsDistinct(ops: seq<Op>, slots: Slots)
    requires OrderedBy(ops, slots)
    ensures DistinctKeys(slots)
  {
    hide LastPut;
    forall i, j | 0 <= i < j < |slots| ensures slots[i].key != slots[j].key {
      assert LastPut(ops, slots[i].key) < LastPut(ops, slots[j].key);
    }
  }

  /** A hit is the result of the last put for that key, and has not expired. */
  lemma HitIsLastPut(ops: seq<Op>, key: string, now: int)
    requires GetResult(Run(ops), key, now).Some?
    ensures var i := LastPut(ops, key);
      i >= 0 && GetResult(Run(ops), key, now) == Some(ops[i].result) && now < ops[i].now + ops[i].ttlMs
  {
    RunRefines(ops);
    assert FromLastPut(ops, Find(Run(ops), key).value);
  }

  /** After every put, at most 1000 entries, unless the oldest key is the empty string. */
  lemma SizeBounded(ops: seq<Op>)
    requires ops != [] && ops[|ops|-1].Put?
    ensures |Run(ops)| <= 1000 || Run(ops)[0].key == ""
  {
  }

  /** Clock readings never go back, and none is later than `clock`. */
  ghost predicate ClockBy(ops: seq<Op>, clock: int) {
    ops == [] ||
    match ops[|ops|-1]
    case Put(_, _, _, sweepAt, now) => sweepAt <= now <= clock && ClockBy(ops[..|ops|-1], sweepAt)
    case Get(_, now) => now <= clock && ClockBy(ops[..|ops|-1], now)
  }

  /** The keys put after position i. */
  ghost function KeysPutAfter(ops: seq<Op>, i: int): set<string> {
    set j | 0 <= j < |ops| && i < j && ops[j].Put? :: ops[j].key
  }

  lemma KeysPutAfterSnoc(ops: seq<Op>, op: Op, i: int)
    ensures KeysPutAfter(ops, i) <= KeysPutAfter(ops + [op], i)
    ensures |KeysPutAfter(ops, i)| <= |KeysPutAfter(ops + [op], i)|
  {
    var longer := ops + [op];
    forall k | k in KeysPutAfter(ops, i) ensures k in KeysPutAfter(longer, i) {
      var j :| 0 <= j < |ops| && i < j && ops[j].Put? && ops[j].key == k;
      assert longer[j] == ops[j];
    }
    SubsetCard(KeysPutAfter(ops, i), KeysPutAfter(longer, i));
  }

  lemma SubsetCard(a: set<string>, b: set<string>)
    requires a <= b
    ensures |a| <= |b|
  {
    assert b == a + (b - a);
  }

  lemma {:induction false} DistinctKeysCard(slots: Slots, keys: set<string>)
    requires DistinctKeys(slots) && forall i :: 0 <= i < |slots| ==> slots[i].key in keys
    ensures |slots| <= |keys|
  {
    if slots != [] {
      var front, last := slots[..|slots|-1], slots[|slots|-1];
      forall i | 0 <= i < |front| ensures front[i].key in keys - {last.key} {
        assert slots[i].key != slots[|slots|-1].key;
      }
      DistinctKeysCard(front, keys - {last.key});
    }
  }

  /** An unexpired key is cached, or at least 1000 different keys were put after it. */
  ghost predicate Accounted(ops: seq<Op>, slots: Slots, key: string, clock: int) {
    var i := LastPut(ops, key);
    i >= 0 && ops[i].now + ops[i].ttlMs > clock ==>
      Find(slots, key).Some? || |KeysPutAfter(ops, i)| >= 1000
  }

  lemma LaterSlotPutAfter(ops: seq<Op>, full: Slots, p: nat, q: nat)
    requires Refines(ops, full) && p < q < |full|
    ensures full[q].key in KeysPutAfter(ops, LastPut(ops, full[p].key))
  {
    hide LastPut;
    assert LastPut(ops, full[p].key) < LastPut(ops, full[q].key);
    assert full[q] in full && FromLastPut(ops, full[q]);
    var j := LastPut(ops, full[q].key);
    assert ops[j].Put? && ops[j].key == full[q].key;
  }

  lemma DroppedAccounts(ops: seq<Op>, full: Slots, kept: Slots, p: nat)
    requires Refines(ops, full) && |kept| >= MAX_CACHE_ENTRIES
    requires |kept| <= |full| && kept == full[|full| - |kept|..] && p < |full| - |kept|
    ensures |KeysPutAfter(ops, LastPut(ops, full[p].key))| >= MAX_CACHE_ENTRIES
  {
    hide LastPut, FromLastPut, OrderedBy, KeysPutAfter, DistinctKeys;
    SuffixRefines(ops, full, kept);
    OrderedIsDistinct(ops, kept);
    forall q | 0 <= q < |kept| ensures kept[q].key in KeysPutAfter(ops, LastPut(ops, full[p].key)) {
      LaterSlotPutAfter(ops, full, p, |full| - |kept| + q);
    }
    DistinctKeysCard(kept, KeysPutAfter(ops, LastPut(ops, full[p].key)));
  }

  /** What eviction drops was put before everything it keeps, and it keeps at least 1000. */
  lemma EvictedAccounts(ops: seq<Op>, full: Slots, slot: Slot)
    requires Refines(ops, full) && slot in full
    ensures Find(Evicted(full), slot.key).Some? || |KeysPutAfter(ops, LastPut(ops, slot.key))| >= 1000
  {
    hide LastPut, Evicted, FromLastPut, OrderedBy, KeysPutAfter, Find;
    var kept := Evicted(full);
    var p :| 0 <= p < |full| && full[p] == slot;
    var cut := |full| - |kept|;
    if p < cut {
      DroppedAccounts(ops, full, kept, p);
    } else if Find(kept, slot.key).None? {
      FindAbsent(kept, slot.key, p - cut);
    }
  }

  lemma PutAccounts(front: seq<Op>, op: Op, key: string, clock: int)
    requires op.Put? && op.sweepAt <= op.now <= clock
    requires Accounted(front, Run(front), key, op.sweepAt)
    ensures Accounted(front + [op], Evicted(Refilled(Run(front), op)), key, clock)
  {
    hide LastPut, Evicted, Filter, Refilled, Refines, FromLastPut, Find, KeysPutAfter, Run;
    var ops, slots := front + [op], Run(front);
    RunRefines(front);
    RefilledRefines(front, slots, op);
    LastPutSnoc(front, op, key);
    var i := LastPut(ops, key);
    if i >= 0 && ops[i].now + ops[i].ttlMs > clock {
      if key == op.key {
        RefilledEnds(slots, op);
        EvictedAccounts(ops, Refilled(slots, op), Slot(op.key, op.now + op.ttlMs, op.result));
      } else {
        assert ops[i] == front[i];
        KeysPutAfterSnoc(front, op, i);
        if Find(slots, key).Some? {
          KeptByPut(front, slots, op, key);
          EvictedAccounts(ops, Refilled(slots, op), Find(slots, key).value);
        }
      }
    }
  }

  lemma KeptByPut(front: seq<Op>, slots: Slots, op: Op, key: string)
    requires op.Put? && Refines(front, slots) && Find(slots, key).Some? && key != op.key
    requires var i := LastPut(front, key); i >= 0 && front[i].now + front[i].ttlMs > op.sweepAt
    ensures Find(slots, key).value in Refilled(slots, op) && Find(slots, key).value.key == key
  {
    hide LastPut, Filter;
    var slot := Find(slots, key).value;
    assert FromLastPut(front, slot);
    KeptMember(slots, op, slot);
  }

  lemma GetAccounts(front: seq<Op>, op: Op, key: string, clock: int)
    requires op.Get? && op.now <= clock
    requires Accounted(front, Run(front), key, op.now)
    ensures Accounted(front + [op], AfterGet(Run(front), op.key, op.now), key, clock)
  {
    hide LastPut, Filter;
    var slots := Run(front);
    RunRefines(front);
    LastPutSnoc(front, op, key);
    var i := LastPut(front, key);
    KeysPutAfterSnoc(front, op, i);
    if i >= 0 && Find(slots, key).Some? {
      var slot := Find(slots, key).value;
      assert FromLastPut(front, slot);
      FilterMember(slots, Other(op.key), slot);
      FoundIfMember(Remove(slots, op.key), slot);
    }
  }

  /** With a clock that never goes back, an unexpired key is missing only after 1000 other keys. */
  lemma {:induction false} MissOnlyAfterCapacity(ops: seq<Op>, key: string, clock: int)
    requires ClockBy(ops, clock)
    ensures Accounted(ops, Run(ops), key, clock)
  {
    hide LastPut, Evicted, AfterGet, Refilled;
    if ops != [] {
      var front, op := ops[..|ops|-1], ops[|ops|-1];
      assert ops == front + [op];
      match op {
        case Put(_, _, _, sweepAt, now) =>
          MissOnlyAfterCapacity(front, key, sweepAt);
          PutAccounts(front, op, key, clock);
          PutIsEvicted(Run(front), op);
        case Get(_, now) =>
          MissOnlyAfterCapacity(front, key, now);
          GetAccounts(front, op, key, clock);
      }
    } else {
      NoPutYet(key);
    }
  }

  lemma NoPutYet(key: string)
    ensures LastPut([], key) == -1
  {
  }

  // ----- what one operation does -----

  /** A get answers from an entry of its key that expires later, and from nothing else. */
  lemma HitIff(ops: seq<Op>, key: string, now: int)
    ensures GetResult(Run(ops), key, now).Some? <==> exists s :: s in Run(ops) && s.key == key && now < s.expiresAt
    ensures forall s :: s in Run(ops) && s.key == key && now < s.expiresAt ==> GetResult(Run(ops), key, now) == Some(s.result)
  {
    hide Refines;
    var slots := Run(ops);
    RunDistinct(ops);
    hide Find, Run, DistinctKeys;
    forall s | s in slots && s.key == key ensures Find(slots, key) == Some(s) {
      FoundIs(slots, s);
    }
  }

  lemma FoundIs(slots: Slots, s: Slot)
    requires DistinctKeys(slots) && s in slots
    ensures Find(slots, s.key) == Some(s)
  {
    FoundIfMember(slots, s);
    SameSlot(slots, Find(slots, s.key).value, s);
    hide Find, DistinctKeys;
  }

  lemma RunDistinct(ops: seq<Op>)
    ensures DistinctKeys(Run(ops))
  {
    RunRefines(ops);
    OrderedIsDistinct(ops, Run(ops));
  }

  lemma SameSlot(slots: Slots, a: Slot, b: Slot)
    requires DistinctKeys(slots) && a in slots && b in slots && a.key == b.key
    ensures a == b
  {
    var i :| 0 <= i < |slots| && slots[i] == a;
    var j :| 0 <= j < |slots| && slots[j] == b;
  }

  /** A get deletes the entry of its key if that has expired, and leaves all others. */
  lemma GetDrops(ops: seq<Op>, key: string, now: int, s: Slot)
    ensures s in Run(ops + [Get(key, now)]) <==> s in Run(ops) && !(s.key == key && s.expiresAt <= now)
  {
    hide Refines, Filter;
    var slots := Run(ops);
    assert (ops + [Get(key, now)])[..|ops|] == ops;
    RunDistinct(ops);
    FilterMember(slots, Other(key), s);
    if s in slots { FoundIs(slots, s); }
    hide Find, DistinctKeys, Run;
  }

  /** After a put its entry is the newest one, and every other entry was there before and had not expired. */
  lemma PutLeaves(ops: seq<Op>, op: Op)
    requires op.Put?
    ensures var after := Run(ops + [op]);
      && after != [] && after[|after|-1] == Slot(op.key, op.now + op.ttlMs, op.result)
      && forall s :: s in after[..|after|-1] ==> s in Run(ops) && s.key != op.key && op.sweepAt < s.expiresAt
  {
    assert (ops + [op])[..|ops|] == ops;
    var full := Refilled(Run(ops), op);
    PutIsEvicted(Run(ops), op);
    assert Run(ops + [op]) == Evicted(full);
    hide *;
    RefilledEnds(Run(ops), op);
    EvictedKeepsOne(full);
    var after := Evicted(full);
    forall s | s in after[..|after|-1] ensures s in Run(ops) && s.key != op.key && op.sweepAt < s.expiresAt {
      var i := OlderPlace(full, after, s);
      RefilledAt(Run(ops), op, i);
    }
  }

  lemma OlderPlace(full: Slots, after: Slots, s: Slot) returns (i: nat)
    requires 0 < |after| <= |full| && after == full[|full| - |after|..] && s in after[..|after|-1]
    ensures i < |full| - 1 && full[i] == s
  {
    var j :| 0 <= j < |after| - 1 && after[j] == s;
    i := |full| - |after| + j;
  }

  lemma RefilledEnds(slots: Slots, op: Op)
    requires op.Put?
    ensures var full := Refilled(slots, op);
      full != [] && full[|full|-1] == Slot(op.key, op.now + op.ttlMs, op.result)
  {
    hide Filter;
  }

  lemma RefilledAt(slots: Slots, op: Op, i: nat)
    requires op.Put? && i < |Refilled(slots, op)| - 1
    ensures var s := Refilled(slots, op)[i]; s in slots && s.key != op.key && op.sweepAt < s.expiresAt
  {
    hide Filter;
    var s := Refilled(slots, op)[i];
    assert Remove(Swept(slots, op.sweepAt), op.key)[i] == s;
    KeptMember(slots, op, s);
  }

  lemma EvictedKeepsOne(full: Slots)
    requires full != []
    ensures Evicted(full) != []
  {
  }

  /** A miss of a key whose last put has not expired: at least 1000 different keys were put since. */
  lemma UnexpiredMiss(ops: seq<Op>, key: string, now: int)
    requires ClockBy(ops, now) && GetResult(Run(ops), key, now).None?
    requires var i := LastPut(ops, key); i >= 0 && now < ops[i].now + ops[i].ttlMs
    ensures |KeysPutAfter(ops, LastPut(ops, key))| >= 1000
  {
    hide LastPut, KeysPutAfter, Find, Run;
    MissOnlyAfterCapacity(ops, key, now);
    if Find(Run(ops), key).Some? { FoundExpires(ops, key); }
  }

  lemma FoundExpires(ops: seq<Op>, key: string)
    requires Find(Run(ops), key).Some?
    ensures LastPut(ops, key) >= 0
    ensures var i := LastPut(ops, key); Find(Run(ops), key).value.expiresAt == ops[i].now + ops[i].ttlMs
  {
    RunRefines(ops);
    assert FromLastPut(ops, Find(Run(ops), key).value);
  }

  // ----- the key of a request -----

  /** `buildCacheKey`, from the query's digest. */
  function BuildCacheKey(agentId: string, sessionKey: Option<string>, sessionId: Option<string>, hash: string): string {
    var session := if sessionKey.Some? then sessionKey.value else if sessionId.Some? then sessionId.value else "none";
    agentId + ":" + session + ":" + hash
  }

  /** Keys are never empty, so the eviction loop never stops early and the capacity holds. */
  lemma CapacityHolds(ops: seq<Op>)
    requires forall op :: op in ops ==>
      exists a, k, i, h :: op.key == BuildCacheKey(a, k, i, h)
    requires ops != [] && ops[|ops|-1].Put?
    ensures |Run(ops)| <= 1000
  {
    hide LastPut;
    SizeBounded(ops);
    RunRefines(ops);
    if |Run(ops)| > MAX_CACHE_ENTRIES {
      var slot := Run(ops)[0];
      assert slot in Run(ops) && FromLastPut(ops, slot);
      PutKey(ops, slot.key);
    }
  }

  lemma PutKey(ops: seq<Op>, key: string)
    ensures LastPut(ops, key) >= 0 ==> exists op :: op in ops && op.key == key
  {
    var i := LastPut(ops, key);
    if i >= 0 {
      assert ops[i] in ops;
    }
  }

  /** The session key, else the session id, else the word "none". */
  ghost predicate SessionIs(sessionKey: Option<string>, sessionId: Option<string>, session: string) {
    match sessionKey
    case Some(key) => session == key
    case None => match sessionId
      case Some(id) => session == id
      case None => session == "none"
  }

  /** Requests share an entry exactly if agent, session and digest agree, for agent ids and digests without a colon. */
  lemma CacheKeysAgree(
    a: string, k: Option<string>, i: Option<string>, h: string, s: string,
    a': string, k': Option<string>, i': Option<string>, h': string, s': string)
    requires SessionIs(k, i, s) && SessionIs(k', i', s')
    requires ':' !in a && ':' !in a' && ':' !in h && ':' !in h'
    ensures BuildCacheKey(a, k, i, h) == BuildCacheKey(a', k', i', h') <==> a == a' && s == s' && h == h'
  {
    var x, y := a + ":" + s + ":" + h, a' + ":" + s' + ":" + h';
    assert BuildCacheKey(a, k, i, h) == x && BuildCacheKey(a', k', i', h') == y;
    if x == y {
      FirstColon(a, s + ":" + h, a', s' + ":" + h', x);
      LastColon(s, h, s', h', s + ":" + h);
    }
  }

  lemma FirstColon(a: string, b: string, a': string, b': string, x: string)
    requires ':' !in a && ':' !in a' && x == a + ":" + b && x == a' + ":" + b'
    ensures a == a' && b == b'
  {
    NoColonBefore(a, b, x);
    NoColonBefore(a', b', x);
    assert |a| == |a'|;
    assert x[..|a|] == a && x[..|a'|] == a' && x[|a|+1..] == b && x[|a'|+1..] == b';
  }

  lemma NoColonBefore(a: string, b: string, x: string)
    requires ':' !in a && x == a + ":" + b
    ensures x[|a|] == ':' && forall k :: 0 <= k < |a| ==> x[k] != ':'
  {
    forall k | 0 <= k < |a| ensures x[k] != ':' { assert x[k] == a[k]; }
  }

  lemma NoColonAfter(s: string, h: string, x: string)
    requires ':' !in h && x == s + ":" + h
    ensures x[|s|] == ':' && forall k :: |s| < k < |x| ==> x[k] != ':'
  {
    forall k | |s| < k < |x| ensures x[k] != ':' { assert x[k] == h[k - |s| - 1]; }
  }

  lemma LastColon(s: string, h: string, s': string, h': string, x: string)
    requires ':' !in h && ':' !in h' && x == s + ":" + h && x == s' + ":" + h'
    ensures s == s' && h == h'
  {
    NoColonAfter(s, h, x);
    NoColonAfter(s', h', x);
    assert |s| == |s'|;
    assert x[..|s|] == s && x[..|s'|] == s' && x[|s|+1..] == h && x[|s'|+1..] == h';
  }
}
