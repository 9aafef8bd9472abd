/**
 * The cache protocol of `discoverBedrockModels`: calls, fetches that settle later, and the
 * continuation of the call that started a fetch, in any interleaving. The code between two
 * awaits runs without interruption, so each such stretch is one step.
 */
module DiscoveryCache {
  import opened Results

  /** `buildCacheKey`: the refresh interval is part of the key. */
  datatype Key = Key(
    region: string, providerFilter: seq<string>, refreshIntervalSeconds: nat, contextWindow: int, maxTokens: int)

  type Models = seq<string>

  datatype Outcome = Discovered(models: Models) | Failed

  datatype Entry = Entry(expiresAt: int, value: Option<Models>, inFlight: Option<nat>)

  /** `Settled`: the promise has its outcome; `Returned`: the starting call has dealt with it. */
  datatype Status = Running | Settled(outcome: Outcome) | Returned(outcome: Outcome)

  datatype Fetch = Fetch(key: Key, startedAt: int, status: Status)

  datatype How = Hit(models: Models) | Joined(fetch: nat) | Started(fetch: nat)

  datatype Call = Call(key: Key, now: int, how: How)

  datatype State = State(cache: map<Key, Entry>, fetches: seq<Fetch>, calls: seq<Call>)

  datatype Event =
    | Discover(key: Key, now: int)
    | Settle(fetch: nat, outcome: Outcome)
    | Resume(fetch: nat)

  const INIT := State(map[], [], [])

  function ExpiresAt(f: Fetch): int {
    f.startedAt + f.key.refreshIntervalSeconds * 1000
  }

  function Cached(s: State, key: Key): Option<Entry> {
    if key in s.cache then Some(s.cache[key]) else None
  }

  /** What a call does before its first await. */
  function HowAnswered(s: State, key: Key, now: int): How {
    var cached := if key.refreshIntervalSeconds > 0 then Cached(s, key) else None;
    if cached.Some? && cached.value.value.Some? && cached.value.expiresAt > now then Hit(cached.value.value.value)
    else if cached.Some? && cached.value.inFlight.Some? then Joined(cached.value.inFlight.value)
    else Started(|s.fetches|)
  }

  function AfterDiscover(s: State, key: Key, now: int): State {
    var how := HowAnswered(s, key, now);
    var calls := s.calls + [Call(key, now, how)];
    if !how.Started? then s.(calls := calls)
    else
      var f := Fetch(key, now, Running);
      State(
        if key.refreshIntervalSeconds > 0 then s.cache[key := Entry(ExpiresAt(f), None, Some(|s.fetches|))] else s.cache,
        s.fetches + [f], calls)
  }

  /** The `try`/`catch` after the await of the starting call. */
  function AfterResume(s: State, i: nat): State
    requires i < |s.fetches| && s.fetches[i].status.Settled?
  {
    var f := s.fetches[i];
    var cache :=
      if f.key.refreshIntervalSeconds == 0 then s.cache
      else match f.status.outcome
        case Discovered(models) => s.cache[f.key := Entry(ExpiresAt(f), Some(models), None)]
        case Failed => s.cache - {f.key};
    s.(cache := cache, fetches := s.fetches[i := f.(status := Returned(f.status.outcome))])
  }

  function Step(s: State, e: Event): Option<State> {
    match e
    case Discover(key, now) => Some(AfterDiscover(s, key, now))
    case Settle(i, outcome) =>
      if i < |s.fetches| && s.fetches[i].status.Running?
      then Some(s.(fetches := s.fetches[i := s.fetches[i].(status := Settled(outcome))])) else None
    case Resume(i) =>
      if i < |s.fetches| && s.fetches[i].status.Settled? then Some(AfterResume(s, i)) else None
  }

  function Run(events: seq<Event>): Option<State> {
    if events == [] then Some(INIT)
    else
      var before := Run(events[..|events|-1]);
      if before.None? then None else Step(before.value, events[|events|-1])
  }

  // ----- the cache as a view of the fetches -----

  function LastFetch(fetches: seq<Fetch>, key: Key): (i: int)
    ensures -1 <= i < |fetches|
    ensures i >= 0 ==> fetches[i].key == key
    ensures forall j {:trigger fetches[j]} :: i < j < |fetches| ==> fetches[j].key != key
  {
    if fetches == [] then -1
    else if fetches[|fetches|-1].key == key then |fetches| - 1
    else LastFetch(fetches[..|fetches|-1], key)
  }

  /** What the latest fetch for a key says the cache should hold. */
  function View(fetches: seq<Fetch>, key: Key): Option<Entry> {
    var i := LastFetch(fetches, key);
    if i < 0 || key.refreshIntervalSeconds == 0 then None
    else
      var f := fetches[i];
      match f.status
      case Returned(Discovered(models)) => Some(Entry(f.startedAt + 1000 * key.refreshIntervalSeconds, Some(models), None))
      case Returned(Failed) => None
      case _ => Some(Entry(f.startedAt + 1000 * key.refreshIntervalSeconds, None, Some(i)))
  }

  predicate Outstanding(f: Fetch) {
    !f.status.Returned?
  }

  /** Everything but the latest fetch of a cached key has returned. */
  ghost predicate OnlyLastOutstanding(fetches: seq<Fetch>) {
    forall i {:trigger fetches[i]} :: 0 <= i < |fetches| && fetches[i].key.refreshIntervalSeconds > 0 && Outstanding(fetches[i])
      ==> LastFetch(fetches, fetches[i].key) == i
  }

  ghost predicate CacheIsView(s: State) {
    forall key {:trigger Cached(s, key)} :: Cached(s, key) == View(s.fetches, key)
  }

  /** How a call was answered still fits the fetches. */
  ghost predicate CallOk(fetches: seq<Fetch>, c: Call) {
    match c.how
    case Started(i) => i < |fetches| && fetches[i].key == c.key && fetches[i].startedAt == c.now
    case Joined(i) => i < |fetches| && fetches[i].key == c.key && c.key.refreshIntervalSeconds > 0
    case Hit(models) => HitOk(fetches, c.key, c.now, models)
  }

  ghost predicate HitOk(fetches: seq<Fetch>, key: Key, now: int, models: Models) {
    exists i :: 0 <= i < |fetches| && fetches[i].key == key
      && fetches[i].status == Returned(Discovered(models)) && now < fetches[i].startedAt + 1000 * key.refreshIntervalSeconds
  }

  ghost predicate Inv(s: State) {
    && CacheIsView(s)
    && OnlyLastOutstanding(s.fetches)
    && forall k :: 0 <= k < |s.calls| ==> CallOk(s.fetches, s.calls[k])
  }

  lemma LastFetchSnoc(fetches: seq<Fetch>, f: Fetch, key: Key)
    ensures LastFetch(fetches + [f], key) == if f.key == key then |fetches| else LastFetch(fetches, key)
  {
    assert (fetches + [f])[..|fetches|] == fetches;
  }

  lemma {:induction false} LastFetchUpdate(fetches: seq<Fetch>, i: nat, f: Fetch, key: Key)
    requires i < |fetches| && f.key == fetches[i].key
    ensures LastFetch(fetches[i := f], key) == LastFetch(fetches, key)
  {
    var last := |fetches| - 1;
    if i < last {
      LastFetchUpdate(fetches[..last], i, f, key);
      assert fetches[i := f][..last] == fetches[..last][i := f];
    } else {
      assert fetches[i := f][..last] == fetches[..last];
    }
  }

  /** Moving on keeps a fetch's key and start, and a returned fetch never changes again. */
  ghost predicate Progresses(before: seq<Fetch>, after: seq<Fetch>) {
    && |before| <= |after|
    && forall i {:trigger after[i]} :: 0 <= i < |before| ==>
         && after[i].key == before[i].key && after[i].startedAt == before[i].startedAt
         && (before[i].status.Returned? ==> after[i] == before[i])
  }

  lemma CallStaysOk(before: seq<Fetch>, after: seq<Fetch>, c: Call)
    requires CallOk(before, c) && Progresses(before, after)
    ensures CallOk(after, c)
  {
    if c.how.Hit? {
      var i :| 0 <= i < |before| && before[i].key == c.key
        && before[i].status == Returned(Discovered(c.how.models)) && c.now < before[i].startedAt + 1000 * c.key.refreshIntervalSeconds;
      assert after[i] == before[i];
    }
  }

  lemma DiscoverKeeps(s: State, key: Key, now: int)
    requires Inv(s)
    ensures Inv(AfterDiscover(s, key, now))
  {
    hide LastFetch;
    var t := AfterDiscover(s, key, now);
    var how := HowAnswered(s, key, now);
    assert Cached(s, key) == View(s.fetches, key);
    if how.Started? {
      var f := Fetch(key, now, Running);
      forall k ensures LastFetch(t.fetches, k) == if key == k then |s.fetches| else LastFetch(s.fetches, k) {
        LastFetchSnoc(s.fetches, f, k);
      }
      forall k ensures Cached(t, k) == View(t.fetches, k) {
        assert Cached(s, k) == View(s.fetches, k);
      }
      forall i | 0 <= i < |t.fetches| && t.fetches[i].key.refreshIntervalSeconds > 0 && Outstanding(t.fetches[i])
        ensures LastFetch(t.fetches, t.fetches[i].key) == i
      {
        if i < |s.fetches| { assert t.fetches[i] == s.fetches[i]; }
      }
    } else {
      forall k ensures Cached(t, k) == View(t.fetches, k) {
        assert Cached(s, k) == View(s.fetches, k);
      }
    }
    DiscoverKeepsCalls(s, key, now);
    hide CallOk, HowAnswered;
  }

  lemma DiscoverKeepsCalls(s: State, key: Key, now: int)
    requires Inv(s)
    ensures var t := AfterDiscover(s, key, now); forall k :: 0 <= k < |t.calls| ==> CallOk(t.fetches, t.calls[k])
  {
    hide LastFetch, OnlyLastOutstanding;
    var t := AfterDiscover(s, key, now);
    assert Cached(s, key) == View(s.fetches, key);
    forall k | 0 <= k < |s.calls| ensures t.calls[k] == s.calls[k] && CallOk(t.fetches, t.calls[k]) {
      CallStaysOk(s.fetches, t.fetches, s.calls[k]);
    }
  }

  lemma UpdateKeeps(s: State, i: nat, f: Fetch)
    requires Inv(s) && i < |s.fetches| && Outstanding(s.fetches[i])
    requires f.key == s.fetches[i].key && f.startedAt == s.fetches[i].startedAt
    ensures Progresses(s.fetches, s.fetches[i := f])
    ensures OnlyLastOutstanding(s.fetches[i := f])
    ensures forall k :: 0 <= k < |s.calls| ==> CallOk(s.fetches[i := f], s.calls[k])
    ensures forall k :: k != f.key ==> View(s.fetches[i := f], k) == View(s.fetches, k)
    ensures LastFetch(s.fetches[i := f], f.key) == LastFetch(s.fetches, f.key)
    ensures f.key.refreshIntervalSeconds > 0 ==> LastFetch(s.fetches, f.key) == i
  {
    hide LastFetch, CallOk;
    var after := s.fetches[i := f];
    forall k ensures LastFetch(after, k) == LastFetch(s.fetches, k) {
      LastFetchUpdate(s.fetches, i, f, k);
    }
    forall k | 0 <= k < |s.calls| ensures CallOk(after, s.calls[k]) {
      CallStaysOk(s.fetches, after, s.calls[k]);
    }
    forall j | 0 <= j < |after| && after[j].key.refreshIntervalSeconds > 0 && Outstanding(after[j])
      ensures LastFetch(after, after[j].key) == j
    {
      assert s.fetches[j].key == after[j].key && Outstanding(s.fetches[j]);
    }
  }

  lemma SettleKeeps(s: State, i: nat, outcome: Outcome)
    requires Inv(s) && i < |s.fetches| && s.fetches[i].status.Running?
    ensures Inv(Step(s, Settle(i, outcome)).value)
  {
    hide LastFetch, CallOk, OnlyLastOutstanding;
    var f := s.fetches[i].(status := Settled(outcome));
    var t := Step(s, Settle(i, outcome)).value;
    UpdateKeeps(s, i, f);
    forall k ensures Cached(t, k) == View(t.fetches, k) {
      assert Cached(s, k) == View(s.fetches, k);
    }
  }

  lemma ResumeKeeps(s: State, i: nat)
    requires Inv(s) && i < |s.fetches| && s.fetches[i].status.Settled?
    ensures Inv(AfterResume(s, i))
  {
    hide LastFetch, CallOk, OnlyLastOutstanding;
    var f := s.fetches[i].(status := Returned(s.fetches[i].status.outcome));
    var t := AfterResume(s, i);
    UpdateKeeps(s, i, f);
    forall k ensures Cached(t, k) == View(t.fetches, k) {
      assert Cached(s, k) == View(s.fetches, k);
    }
  }

  /** Over every run, the cache is the view of the latest fetch of each key. */
  lemma {:induction false} RunKeeps(events: seq<Event>)
    requires Run(events).Some?
    ensures Inv(Run(events).value)
  {
    hide AfterDiscover, AfterResume, Inv;
    if events == [] {
      InitOk();
    } else {
      var before := Run(events[..|events|-1]).value;
      RunKeeps(events[..|events|-1]);
      match events[|events|-1] {
        case Discover(key, now) => DiscoverKeeps(before, key, now);
        case Settle(i, outcome) => SettleKeeps(before, i, outcome);
        case Resume(i) => ResumeKeeps(before, i);
      }
    }
  }

  lemma InitOk()
    ensures Inv(INIT)
  {
  }

  // ----- the theorems -----

  /** At most one outstanding fetch per cached key, under any interleaving. */
  lemma SingleFlight(events: seq<Event>, i: nat, j: nat)
    requires Run(events).Some?
    requires var s := Run(events).value;
      && i < |s.fetches| && j < |s.fetches| && s.fetches[i].key == s.fetches[j].key
      && s.fetches[i].key.refreshIntervalSeconds > 0
      && Outstanding(s.fetches[i]) && Outstanding(s.fetches[j])
    ensures i == j
  {
    RunKeeps(events);
  }

  /** The entry a finishing call overwrites or deletes is its own, and no other key changes. */
  lemma ResumeTouchesOwnEntry(events: seq<Event>, i: nat)
    requires Run(events).Some? && Step(Run(events).value, Resume(i)).Some?
    requires Run(events).value.fetches[i].key.refreshIntervalSeconds > 0
    ensures var s := Run(events).value;
      var t := Step(s, Resume(i)).value;
      var f := s.fetches[i];
      && Cached(s, f.key) == Some(Entry(f.startedAt + 1000 * f.key.refreshIntervalSeconds, None, Some(i)))
      && (Cached(t, f.key).None? <==> f.status.outcome.Failed?)
      && forall k :: k != f.key ==> Cached(t, k) == Cached(s, k)
  {
    RunKeeps(events);
    var s := Run(events).value;
    assert Cached(s, s.fetches[i].key) == View(s.fetches, s.fetches[i].key);
  }

  /** What a call gives its caller, once that is known; `Failed` is a rejection. */
  function Answer(s: State, c: Call): Option<Outcome>
    requires match c.how case Hit(_) => true case Joined(i) => i < |s.fetches| case Started(i) => i < |s.fetches|
  {
    match c.how
    case Hit(models) => Some(Discovered(models))
    case Joined(i) =>
      (match s.fetches[i].status
       case Running => None
       case Settled(outcome) => Some(outcome)
       case Returned(outcome) => Some(outcome))
    case Started(i) =>
      (match s.fetches[i].status
       case Returned(Discovered(models)) => Some(Discovered(models))
       case Returned(Failed) => Some(Discovered([]))
       case _ => None)
  }

  ghost predicate Answers(s: State, k: nat, outcome: Outcome) {
    k < |s.calls| && CallOk(s.fetches, s.calls[k]) && Answer(s, s.calls[k]) == Some(outcome)
  }

  /**
   * Everyone waiting on one fetch gets its outcome: the same models, or on failure an empty list
   * for the call that started it and a rejection for those that joined.
   */
  lemma JoinersShareOutcome(events: seq<Event>, starter: nat, joiner: nat, i: nat)
    requires Run(events).Some?
    requires var s := Run(events).value;
      && starter < |s.calls| && joiner < |s.calls|
      && s.calls[starter].how == Started(i) && s.calls[joiner].how == Joined(i)
    ensures var s := Run(events).value;
      && i < |s.fetches| && s.calls[joiner].key == s.calls[starter].key
      && (forall models :: s.fetches[i].status == Returned(Discovered(models)) ==>
            Answers(s, starter, Discovered(models)) && Answers(s, joiner, Discovered(models)))
      && (s.fetches[i].status == Returned(Failed) ==>
            Answers(s, starter, Discovered([])) && Answers(s, joiner, Failed))
  {
    RunKeeps(events);
    var s := Run(events).value;
    assert CallOk(s.fetches, s.calls[starter]) && CallOk(s.fetches, s.calls[joiner]);
  }

  /** A hit comes from a returned fetch for that key, started less than the interval in milliseconds ago. */
  lemma HitIsFresh(events: seq<Event>, key: Key, now: int)
    requires Run(events).Some? && HowAnswered(Run(events).value, key, now).Hit?
    ensures HitOk(Run(events).value.fetches, key, now, HowAnswered(Run(events).value, key, now).models)
  {
    RunKeeps(events);
    var s := Run(events).value;
    assert Cached(s, key) == View(s.fetches, key);
    var i := LastFetch(s.fetches, key);
    assert 0 <= i < |s.fetches| && s.fetches[i].key == key;
  }

  /** How the next call for a cached key is answered is decided by the latest fetch for it. */
  lemma LatestFetchDecides(events: seq<Event>, key: Key, now: int)
    requires Run(events).Some? && key.refreshIntervalSeconds > 0
    ensures var s := Run(events).value;
      var i := LastFetch(s.fetches, key);
      HowAnswered(s, key, now) ==
        if i < 0 then Started(|s.fetches|)
        else if Outstanding(s.fetches[i]) then Joined(i)
        else if s.fetches[i].status.outcome.Discovered? && now < s.fetches[i].startedAt + 1000 * key.refreshIntervalSeconds
             then Hit(s.fetches[i].status.outcome.models)
        else Started(|s.fetches|)
  {
    RunKeeps(events);
    var s := Run(events).value;
    assert Cached(s, key) == View(s.fetches, key);
  }

  /** A call that starts a fetch adds one for its own key and time; other calls add none. */
  lemma FetchesStarted(events: seq<Event>, key: Key, now: int)
    requires Run(events).Some?
    ensures Run(events + [Discover(key, now)]).Some?
    ensures var s, t := Run(events).value, Run(events + [Discover(key, now)]).value;
      && t.calls == s.calls + [Call(key, now, HowAnswered(s, key, now))]
      && t.fetches == if HowAnswered(s, key, now) == Started(|s.fetches|) then s.fetches + [Fetch(key, now, Running)]
                      else s.fetches
  {
    assert (events + [Discover(key, now)])[..|events|] == events;
  }

  /** Without a refresh interval every call fetches, and nothing is cached. */
  lemma NoIntervalNoCache(events: seq<Event>, key: Key, now: int)
    requires Run(events).Some? && key.refreshIntervalSeconds == 0
    ensures HowAnswered(Run(events).value, key, now).Started? && Cached(Run(events).value, key).None?
  {
    RunKeeps(events);
    var s := Run(events).value;
    assert Cached(s, key) == View(s.fetches, key);
  }
}
