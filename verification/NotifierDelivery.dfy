/** When requests are announced again, how often a one-shot subscription fires, and where both need trimmed ids. */
module NotifierDelivery {
  import opened Results
  import opened Sequences
  import opened Text
  import opened OrderedMaps
  import opened NotifierKeys
  import opened PairNotifier
  import opened NotifierRuns

  function TimeOf(e: Event): int {
    e.now
  }

  ghost predicate ClockNeverBack(events: seq<Event>) {
    forall i, j :: 0 <= i <= j < |events| ==> TimeOf(events[i]) <= TimeOf(events[j])
  }

  /** The state an event of the run reads. */
  function StateAt(events: seq<Event>, k: nat): State
    requires k <= |events|
  {
    ReadState(Run(events[..k]))
  }

  // ----- repeated announcements -----

  lemma {:induction false} GetConcat(a: Notified, e: (string, int), k: string)
    ensures Get(a + [e], k) == if Get(a, k).Some? then Get(a, k) else if e.0 == k then Some(e.1) else None
  {
    if a == [] {
      assert a + [e] == [e] && [e][1..] == [];
    } else {
      GetConcat(a[1..], e, k);
      assert (a + [e])[1..] == a[1..] + [e];
    }
  }

  lemma {:induction false} GetSwept(notified: Notified, pending: seq<Request>, now: int, r: string)
    requires NoDuplicates(KeysOf(notified))
    ensures var before: Option<int> := Get(notified, r);
      Get(SweptNotified(notified, pending, now), r)
        == if before.Some? && IsPending(pending, r) && now - before.value <= 86_400_000 then before else None
  {
    hide IsPending;
    if notified != [] {
      var front, last := notified[..|notified|-1], notified[|notified|-1];
      assert notified == front + [last];
      KeysPrefix(front, [last]);
      NoDuplicatesSplit(KeysOf(front), KeysOf([last]));
      assert KeysOf([last]) == [last.0];
      GetSwept(front, pending, now, r);
      GetConcat(front, last, r);
      GetPlace(front, r);
      GetConcat(SweptNotified(front, pending, now), last, r);
      assert SweptNotified(front, pending, now) + [] == SweptNotified(front, pending, now);
    }
  }

  /** During a poll an announced request stays announced, and a new announcement carries the poll's time. */
  lemma {:induction false} NotifyKeepsSeen(
    start: Notified, subscribers: seq<Subscription>, pending: seq<Request>, n: nat, m: nat, now: int, channel: Channel, r: string)
    requires n <= m <= |pending| && now > 0
    requires Seen(Notify(start, subscribers, pending, n, now, channel).notified, r)
    ensures Get(Notify(start, subscribers, pending, m, now, channel).notified, r)
         == Get(Notify(start, subscribers, pending, n, now, channel).notified, r)
    decreases m
  {
    hide Delivered, OnceKeys;
    if n < m {
      NotifyKeepsSeen(start, subscribers, pending, n, m - 1, now, channel, r);
      GetPut(Notify(start, subscribers, pending, m - 1, now, channel).notified, pending[m-1].requestId, now, r);
    }
  }

  /** The n-th pending request is announced by this poll, and has id r. */
  ghost predicate Announces(state: State, e: Event, n: nat, r: string) {
    && e.Poll? && n < |e.pending| && e.pending[n].requestId == r
    && state.subscribers != []
    && !Seen(Notify(SweptNotified(state.notified, e.pending, e.now), state.subscribers, e.pending, n, e.now, e.channel).notified, r)
    && Delivered(state.subscribers, e.pending[n], n, e.channel)
  }

  lemma AnnouncedIsStored(state: State, e: Event, n: nat, r: string)
    requires Announces(state, e, n, r) && e.now > 0
    ensures Get(Next(state, e).notified, r) == Some(e.now)
  {
    hide Delivered, OnceKeys, Seen, SweptNotified;
    var start := SweptNotified(state.notified, e.pending, e.now);
    var before := Notify(start, state.subscribers, e.pending, n, e.now, e.channel).notified;
    GetPut(before, r, e.now, r);
    var after := Notify(start, state.subscribers, e.pending, n + 1, e.now, e.channel).notified;
    assert after == Put(before, r, e.now);
    SeenIfPositive(after, r, e.now);
    NotifyKeepsSeen(start, state.subscribers, e.pending, n + 1, |e.pending|, e.now, e.channel, r);
  }

  lemma SeenIfPositive(notified: Notified, r: string, ts: int)
    requires Get(notified, r) == Some(ts) && ts > 0
    ensures Seen(notified, r)
  {
  }

  /** Since its announcement at time t, r is on record with t or later, or more than a day has passed. */
  ghost predicate OnRecord(notified: Notified, r: string, t: int, clock: int) {
    (Get(notified, r).Some? && Get(notified, r).value >= t) || clock - t > NOTIFY_MAX_SEEN_AGE_MS
  }

  lemma OnRecordKept(state: State, e: Event, r: string, t: int, clock: int)
    requires StateOk(state) && EventOk(e) && clock <= e.now && t > 0
    requires OnRecord(state.notified, r, t, clock)
    requires e.Poll? ==> IsPending(e.pending, r)
    ensures OnRecord(Next(state, e).notified, r, t, e.now)
  {
    hide IsPending, SubscribersOk, EntryOk;
    if e.Poll? && e.now - t <= NOTIFY_MAX_SEEN_AGE_MS {
      GetSwept(state.notified, e.pending, e.now, r);
      var start := SweptNotified(state.notified, e.pending, e.now);
      SeenIfPositive(start, r, Get(state.notified, r).value);
      if state.subscribers != [] {
        NotifyKeepsSeen(start, state.subscribers, e.pending, 0, |e.pending|, e.now, e.channel, r);
      }
    }
  }

  lemma AnnouncedOnlyOffRecord(state: State, e: Event, n: nat, r: string, t: int, clock: int)
    requires StateOk(state) && EventOk(e) && clock <= e.now && t > 0
    requires OnRecord(state.notified, r, t, clock) && Announces(state, e, n, r)
    ensures e.now - t > NOTIFY_MAX_SEEN_AGE_MS
  {
    hide SubscribersOk, EntryOk, Delivered;
    assert IsPending(e.pending, r);
    GetSwept(state.notified, e.pending, e.now, r);
    var start := SweptNotified(state.notified, e.pending, e.now);
    if Get(start, r).Some? && Get(start, r).value > 0 {
      SeenIfPositive(start, r, Get(start, r).value);
      NotifyKeepsSeen(start, state.subscribers, e.pending, 0, n, e.now, e.channel, r);
    }
  }

  lemma PrefixOk(events: seq<Event>, k: nat)
    requires AllOk(events) && k <= |events|
    ensures AllOk(events[..k])
  {
    hide EventOk;
  }

  lemma StateAfter(events: seq<Event>, k: nat)
    requires AllOk(events) && k < |events|
    ensures StateOk(StateAt(events, k)) && StateOk(StateAt(events, k + 1))
    ensures StateAt(events, k + 1).notified == Next(StateAt(events, k), events[k]).notified
  {
    hide EventOk, StateOk, Next, Writes, ReadState;
    assert events[..k+1][..k] == events[..k];
    PrefixOk(events, k);
    PrefixOk(events, k + 1);
    RunOk(events[..k]);
    RunOk(events[..k+1]);
    ReadStateOk(Run(events[..k]));
    ReadStateOk(Run(events[..k+1]));
    if !Writes(StateAt(events, k), events[k]) {
      SkippedWriteIsNoChange(StateAt(events, k), events[k]);
    }
  }

  lemma {:induction false} StaysOnRecord(events: seq<Event>, i: nat, n: nat, k: nat, r: string)
    requires AllOk(events) && ClockNeverBack(events) && i < k <= |events|
    requires Announces(StateAt(events, i), events[i], n, r)
    requires forall m :: i < m < k && events[m].Poll? ==> IsPending(events[m].pending, r)
    ensures OnRecord(StateAt(events, k).notified, r, TimeOf(events[i]), TimeOf(events[k-1]))
    decreases k
  {
    hide Announces, IsPending, StateOk, StateAt, Next, OnRecord;
    StateAfter(events, k - 1);
    assert EventOk(events[i]) && EventOk(events[k-1]);
    if k == i + 1 {
      AnnounceRecorded(StateAt(events, i), events[i], n, r);
    } else {
      StaysOnRecord(events, i, n, k - 1, r);
      AnnouncePositive(StateAt(events, i), events[i], n, r);
      assert TimeOf(events[k-2]) <= TimeOf(events[k-1]);
      OnRecordKept(StateAt(events, k - 1), events[k-1], r, TimeOf(events[i]), TimeOf(events[k-2]));
    }
  }

  lemma AnnouncePositive(state: State, e: Event, n: nat, r: string)
    requires Announces(state, e, n, r) && EventOk(e)
    ensures e.now > 0
  {
  }

  lemma AnnounceRecorded(state: State, e: Event, n: nat, r: string)
    requires Announces(state, e, n, r) && EventOk(e)
    ensures OnRecord(Next(state, e).notified, r, e.now, e.now)
  {
    AnnouncedIsStored(state, e, n, r);
  }

  /** Two announcements of a request that stays pending are more than 24 hours apart. */
  lemma AnnouncementsApart(events: seq<Event>, i: nat, ni: nat, j: nat, nj: nat, r: string)
    requires AllOk(events) && ClockNeverBack(events) && i < j < |events|
    requires Announces(StateAt(events, i), events[i], ni, r) && Announces(StateAt(events, j), events[j], nj, r)
    requires forall m :: i < m < j && events[m].Poll? ==> IsPending(events[m].pending, r)
    ensures TimeOf(events[j]) - TimeOf(events[i]) > 86_400_000
  {
    hide Announces, IsPending, StateOk, StateAt, OnRecord;
    StaysOnRecord(events, i, ni, j, r);
    StateAfter(events, j);
    assert EventOk(events[i]) && EventOk(events[j]);
    AnnouncePositive(StateAt(events, i), events[i], ni, r);
    assert TimeOf(events[j-1]) <= TimeOf(events[j]);
    AnnouncedOnlyOffRecord(StateAt(events, j), events[j], nj, r, TimeOf(events[i]), TimeOf(events[j-1]));
  }

  /** After every poll of a run, only pending requests are on record. */
  lemma RecordIsPending(events: seq<Event>, k: nat, r: string)
    requires AllOk(events) && k < |events| && events[k].Poll?
    requires r in KeysOf(StateAt(events, k + 1).notified)
    ensures IsPending(events[k].pending, r)
  {
    hide IsPending, StateOk, StateAt;
    StateAfter(events, k);
    assert EventOk(events[k]);
    PolledOk(StateAt(events, k), events[k].pending, events[k].now, events[k].channel);
  }

  // ----- one-shot subscriptions -----

  ghost predicate FiresFor(state: State, e: Event, key: Key) {
    e.Poll? && key in PollProgress(state, e.pending, e.now, e.channel).onceDelivered
  }

  /** The event subscribes a chat with this key. */
  predicate Subscribes(e: Event, key: Key) {
    e.Command? && (e.action == On || e.action == Arm) && e.ctx.telegram
    && ResolveTarget(e.ctx).Some? && TargetKey(ResolveTarget(e.ctx).value) == key
  }

  lemma UpsertedKeys(subscribers: seq<Subscription>, target: Target, mode: Mode, now: int, key: Key)
    requires !HasKey(subscribers, key) && TargetKey(target) != key
    ensures !HasKey(Upserted(subscribers, target, mode, now), key)
  {
    hide FindKey, TargetKey;
  }

  lemma UnsubscribedKeys(subscribers: seq<Subscription>, gone: Key, key: Key)
    requires !HasKey(subscribers, key)
    ensures !HasKey(Unsubscribed(subscribers, gone), key)
  {
    hide FindKey, TargetKey;
    var index := FindKey(subscribers, gone);
    var after := Unsubscribed(subscribers, gone);
    if index >= 0 {
      forall i | 0 <= i < |after| ensures after[i] == subscribers[if i < index then i else i + 1] {}
    }
  }

  lemma WithoutKeys(subscribers: seq<Subscription>, keys: set<Key>, key: Key)
    requires !HasKey(subscribers, key) || key in keys
    ensures !HasKey(Without(subscribers, keys), key)
  {
    hide TargetKey, Without;
    var after := Without(subscribers, keys);
    forall i | 0 <= i < |after| ensures after[i].Key() != key {
      WithoutMembers(subscribers, keys, after[i]);
    }
  }

  lemma NextKeys(state: State, e: Event, key: Key)
    requires !Subscribes(e, key)
    requires !HasKey(state.subscribers, key) || FiresFor(state, e, key)
    ensures !HasKey(Next(state, e).subscribers, key)
  {
    hide HasKey, TargetKey, ResolveTarget, Upserted, Unsubscribed, Without, PollProgress;
    match e {
      case Poll(pending, now, channel) =>
        WithoutKeys(state.subscribers, PollProgress(state, pending, now, channel).onceDelivered, key);
      case Command(ctx, action, now) =>
        if ctx.telegram && ResolveTarget(ctx).Some? {
          var target := ResolveTarget(ctx).value;
          if action == On || action == Arm {
            UpsertedKeys(state.subscribers, target, if action == On then Persistent else Once, now, key);
          } else {
            UnsubscribedKeys(state.subscribers, TargetKey(target), key);
          }
        }
    }
  }

  /** Once fired, the key is gone from every later state until the chat subscribes again. */
  lemma {:induction false} GoneAfterFiring(events: seq<Event>, i: nat, k: nat, key: Key)
    requires AllOk(events) && i < k <= |events| && FiresFor(StateAt(events, i), events[i], key)
    requires forall m :: i < m < k ==> !Subscribes(events[m], key)
    ensures !HasKey(StateAt(events, k).subscribers, key)
    decreases k
  {
    hide StateOk, EventOk, Next, HasKey, FiresFor, ReadState, FileAfter;
    var e := events[k-1];
    assert events[..k][..k-1] == events[..k-1];
    PrefixOk(events, k - 1);
    RunOk(events[..k-1]);
    assert EventOk(e);
    KeysAfter(Run(events[..k-1]), e, key);
    assert Run(events[..k]) == FileAfter(Run(events[..k-1]), e);
    if k == i + 1 {
      PollDoesNotSubscribe(StateAt(events, i), e, key);
    } else {
      GoneAfterFiring(events, i, k - 1, key);
    }
    NextKeys(StateAt(events, k - 1), e, key);
  }

  lemma PollDoesNotSubscribe(state: State, e: Event, key: Key)
    requires FiresFor(state, e, key)
    ensures !Subscribes(e, key)
  {
  }

  /** One arming fires in at most one poll, and only for a request made at or after the arming. */
  lemma OneShotFiresOnce(events: seq<Event>, i: nat, j: nat, key: Key)
    requires AllOk(events) && i < j < |events|
    requires FiresFor(StateAt(events, i), events[i], key)
    requires forall m :: i < m < j ==> !Subscribes(events[m], key)
    ensures !FiresFor(StateAt(events, j), events[j], key)
    ensures OneShotReason(StateAt(events, i).subscribers, events[i].pending, key)
  {
    hide StateAt, OneShotReason, HasKey;
    GoneAfterFiring(events, i, j, key);
    FiringNeedsSubscriber(StateAt(events, i), events[i], key);
    if FiresFor(StateAt(events, j), events[j], key) {
      FiringNeedsSubscriber(StateAt(events, j), events[j], key);
    }
  }

  lemma FiringNeedsSubscriber(state: State, e: Event, key: Key)
    requires FiresFor(state, e, key)
    ensures OneShotReason(state.subscribers, e.pending, key) && HasKey(state.subscribers, key)
  {
    hide Notify, TargetKey;
    OnceDeliveredReason(SweptNotified(state.notified, e.pending, e.now), state.subscribers, e.pending, |e.pending|, e.now, e.channel, key);
  }

  // ----- where trimmed ids are needed -----

  /** An announced request is still on record after re-reading exactly when its id is trimmed and not empty. */
  lemma RecordSurvivesReread(notified: Notified, r: string, now: int)
    requires NotifiedOk(notified) && now > 0
    ensures Seen(ReadNotified(Put(notified, r, now)), r) <==> r != "" && Trimmed(r)
  {
    if r != "" && Trimmed(r) {
      TrimmedSurvives(notified, r, now);
    } else {
      hide Trimmed, NotifiedOk, ReadNotified, Put;
      ReadKeysTrimmed(Put(notified, r, now), r);
      GetPlace(ReadNotified(Put(notified, r, now)), r);
    }
  }

  lemma TrimmedSurvives(notified: Notified, r: string, now: int)
    requires NotifiedOk(notified) && EntryOk((r, now))
    ensures Seen(ReadNotified(Put(notified, r, now)), r)
  {
    assert now > 0;
    hide EntryOk;
    PutOk(notified, r, now);
    ReadNotifiedSame(Put(notified, r, now));
    GetPut(notified, r, now, r);
  }

  lemma {:induction false} ReadKeysTrimmed(notified: Notified, k: string)
    ensures k in KeysOf(ReadNotified(notified)) ==> k != "" && Trimmed(k)
  {
    hide Trim, Trimmed;
    if notified != [] {
      var (id, ts) := notified[|notified|-1];
      TrimIdempotent(id);
      GetPut(ReadNotified(notified[..|notified|-1]), Trim(id), ts, k);
      ReadKeysTrimmed(notified[..|notified|-1], k);
    }
  }

  lemma ReadTwo(a: Subscription, b: Subscription)
    requires Reread(a.target).Some? && Reread(b.target).Some?
    ensures ReadSubscribers([a]) == [a.(target := Reread(a.target).value)]
    ensures ReadSubscribers([a, b]) == [a.(target := Reread(a.target).value), b.(target := Reread(b.target).value)]
  {
    hide Reread;
    var one, two := [a], [a, b];
    assert one[..0] == [] && two[..1] == one;
  }

  lemma RunTwo(e: Event, f: Event)
    ensures Run([e]) == FileAfter(State([], []), e)
    ensures Run([e, f]) == FileAfter(Run([e]), f)
  {
    hide FileAfter;
    var one, two := [e], [e, f];
    assert one[..0] == [] && two[..1] == one;
  }

  /** A chat whose account id has an outer space: its stored target has another key than the one it resolves to. */
  lemma UntrimmedTarget(ctx: Context)
    requires ResolveTarget(ctx).Some? && !Trimmed(AccountPart(ctx.account))
    ensures var given := ResolveTarget(ctx).value;
      && Reread(given).Some? && Reread(Reread(given).value) == Reread(given)
      && TargetKey(Reread(given).value) != TargetKey(given)
  {
    var given := ResolveTarget(ctx).value;
    OptionalTrimmedOk(ctx.senderId);
    OptionalTrimmedOk(ctx.from);
    OptionalTrimmedOk(ctx.to);
    assert AccountPart(given.account) == AccountPart(ctx.account);
    hide OptionalTrimmed, Trimmed, TargetKey, Reread;
    RereadKeepsKey(given);
    RereadStable(given);
  }

  /** An `on` command of a chat whose key is not among those read adds it at the end. */
  lemma OnAppends(file: State, ctx: Context, now: int)
    requires ctx.telegram && ResolveTarget(ctx).Some?
    requires !HasKey(ReadState(file).subscribers, TargetKey(ResolveTarget(ctx).value))
    ensures var read := ReadState(file);
      FileAfter(file, Command(ctx, On, now))
        == State(read.subscribers + [Subscription(ResolveTarget(ctx).value, Persistent, now)], read.notified)
  {
    hide ReadState, ResolveTarget, TargetKey;
  }

  /** Two `on` commands of such a chat leave two subscribers with one key, whenever they are given. */
  lemma UntrimmedAccountDuplicates(ctx: Context, t1: int, t2: int)
    requires ctx.telegram && ResolveTarget(ctx).Some? && !Trimmed(AccountPart(ctx.account))
    ensures var state := ReadState(Run([Command(ctx, On, t1), Command(ctx, On, t2)]));
      |state.subscribers| == 2 && state.subscribers[0].Key() == state.subscribers[1].Key()
  {
    hide *;
    UntrimmedTarget(ctx);
    var given := ResolveTarget(ctx).value;
    var stored := Reread(given).value;
    var s1, s2, r1 := Subscription(given, Persistent, t1), Subscription(given, Persistent, t2), Subscription(stored, Persistent, t1);
    RunTwo(Command(ctx, On, t1), Command(ctx, On, t2));
    FirstOn(ctx, t1);
    SecondOn(ctx, s1, r1, t2);
    ReadPair(r1, s2);
    KeyOf(r1);
    KeyOf(s2.(target := stored));
  }

  lemma KeyOf(s: Subscription)
    ensures s.Key() == TargetKey(s.target)
  {
  }

  lemma FirstOn(ctx: Context, now: int)
    requires ctx.telegram && ResolveTarget(ctx).Some?
    ensures FileAfter(State([], []), Command(ctx, On, now))
         == State([Subscription(ResolveTarget(ctx).value, Persistent, now)], [])
  {
    hide TargetKey, ResolveTarget, FileAfter;
    assert ReadState(State([], [])) == State([], []);
    OnAppends(State([], []), ctx, now);
  }

  /** Read back, the first subscriber has another key, so the second one is added. */
  lemma SecondOn(ctx: Context, s: Subscription, r: Subscription, now: int)
    requires ctx.telegram && ResolveTarget(ctx).Some? && Reread(s.target).Some?
    requires r == s.(target := Reread(s.target).value)
    requires TargetKey(r.target) != TargetKey(ResolveTarget(ctx).value)
    ensures FileAfter(State([s], []), Command(ctx, On, now))
         == State([r, Subscription(ResolveTarget(ctx).value, Persistent, now)], [])
  {
    hide *;
    ReadOne(s);
    OnlyKey(r, TargetKey(ResolveTarget(ctx).value));
    OnAppends(State([s], []), ctx, now);
    assert [r] + [Subscription(ResolveTarget(ctx).value, Persistent, now)]
        == [r, Subscription(ResolveTarget(ctx).value, Persistent, now)];
  }

  lemma ReadOne(s: Subscription)
    requires Reread(s.target).Some?
    ensures ReadState(State([s], [])) == State([s.(target := Reread(s.target).value)], [])
  {
    ReadTwo(s, s);
    hide Reread, ReadSubscribers;
  }

  lemma OnlyKey(s: Subscription, key: Key)
    requires TargetKey(s.target) != key
    ensures !HasKey([s], key)
  {
    hide TargetKey;
  }

  lemma ReadPair(r: Subscription, s: Subscription)
    requires Reread(r.target) == Some(r.target) && Reread(s.target).Some?
    ensures ReadState(State([r, s], [])).subscribers == [r, s.(target := Reread(s.target).value)]
  {
    ReadTwo(r, s);
    hide Reread, ReadSubscribers;
  }

  /** Runs in which all events but the commands of one chat have trimmed ids. */
  ghost predicate OkBut(ctx: Context, events: seq<Event>) {
    forall e :: e in events ==> EventOk(e) || (e.Command? && e.ctx == ctx)
  }

  /** A chat that can subscribe keeps the subscriber keys unique in all such runs if and only if its account id is trimmed. */
  lemma UniqueKeysIffTrimmed(ctx: Context)
    requires ctx.telegram && ResolveTarget(ctx).Some?
    ensures (forall events :: OkBut(ctx, events) ==> UniqueKeys(ReadState(Run(events)).subscribers))
        <==> Trimmed(AccountPart(ctx.account))
  {
    hide Trimmed, Run, ReadState, ResolveTarget, TargetKey;
    if Trimmed(AccountPart(ctx.account)) {
      forall events | OkBut(ctx, events) ensures UniqueKeys(ReadState(Run(events)).subscribers) {
        RunOk(events);
      }
    } else {
      UntrimmedAccountDuplicates(ctx, 1, 2);
      var events := [Command(ctx, On, 1), Command(ctx, On, 2)];
      assert OkBut(ctx, events) && !UniqueKeys(ReadState(Run(events)).subscribers);
    }
  }

  // ----- `off` needs trimmed account ids too -----

  /** The key a chat's subscription has once the file was read back. */
  function StoredKey(ctx: Context): Key
    requires ResolveTarget(ctx).Some? && Reread(ResolveTarget(ctx).value).Some?
  {
    TargetKey(Reread(ResolveTarget(ctx).value).value)
  }

  lemma ResolvedRereads(ctx: Context)
    requires ResolveTarget(ctx).Some?
    ensures Reread(ResolveTarget(ctx).value).Some?
    ensures Trimmed(AccountPart(ctx.account)) ==> StoredKey(ctx) == TargetKey(ResolveTarget(ctx).value)
  {
    var given := ResolveTarget(ctx).value;
    OptionalTrimmedOk(ctx.senderId);
    OptionalTrimmedOk(ctx.from);
    OptionalTrimmedOk(ctx.to);
    assert AccountPart(given.account) == AccountPart(ctx.account);
    hide OptionalTrimmed, Trimmed, TargetKey, Reread;
    RereadKeepsKey(given);
  }

  /** An `off` whose key is not among those read changes nothing. */
  lemma OffMisses(file: State, ctx: Context, now: int)
    requires ctx.telegram && ResolveTarget(ctx).Some?
    requires !HasKey(ReadState(file).subscribers, TargetKey(ResolveTarget(ctx).value))
    ensures FileAfter(file, Command(ctx, Off, now)) == file
  {
    hide ReadState, ResolveTarget, TargetKey, HasKey, Unsubscribed;
    UnsubscribedAbsent(ReadState(file).subscribers, TargetKey(ResolveTarget(ctx).value));
  }

  /** A chat whose account id has an outer space stays subscribed when it turns notifications on and off again. */
  lemma UntrimmedOffFails(ctx: Context, t1: int, t2: int)
    requires ctx.telegram && ResolveTarget(ctx).Some? && !Trimmed(AccountPart(ctx.account))
    ensures Reread(ResolveTarget(ctx).value).Some?
    ensures var subscribers := ReadState(Run([Command(ctx, On, t1), Command(ctx, Off, t2)])).subscribers;
      |subscribers| == 1 && subscribers[0].Key() == StoredKey(ctx) && subscribers[0].mode == Persistent
  {
    hide *;
    ResolvedRereads(ctx);
    UntrimmedTarget(ctx);
    var given := ResolveTarget(ctx).value;
    var s, r := Subscription(given, Persistent, t1), Subscription(Reread(given).value, Persistent, t1);
    RunTwo(Command(ctx, On, t1), Command(ctx, Off, t2));
    FirstOn(ctx, t1);
    ReadOne(s);
    OnlyKey(r, TargetKey(given));
    OffMisses(State([s], []), ctx, t2);
    StoredKeyIs(ctx);
    KeyOf(r);
  }

  lemma StoredKeyIs(ctx: Context)
    requires ResolveTarget(ctx).Some? && Reread(ResolveTarget(ctx).value).Some?
    ensures StoredKey(ctx) == TargetKey(Reread(ResolveTarget(ctx).value).value)
  {
  }

  /** After any run, turning notifications on and then off leaves the chat unsubscribed. */
  ghost predicate OffWorks(ctx: Context)
    requires ResolveTarget(ctx).Some? && Reread(ResolveTarget(ctx).value).Some?
  {
    forall events, t1, t2 :: AllOk(events) ==>
      !HasKey(ReadState(Run(events + [Command(ctx, On, t1), Command(ctx, Off, t2)])).subscribers, StoredKey(ctx))
  }

  lemma TrimmedOffWorks(ctx: Context, events: seq<Event>, t1: int, t2: int)
    requires ctx.telegram && ResolveTarget(ctx).Some? && Trimmed(AccountPart(ctx.account)) && AllOk(events)
    ensures !HasKey(ReadState(Run(events + [Command(ctx, On, t1), Command(ctx, Off, t2)])).subscribers,
                    TargetKey(ResolveTarget(ctx).value))
  {
    hide Trimmed, ReadState, Run, TargetKey, ResolveTarget, HasKey;
    var on, off := Command(ctx, On, t1), Command(ctx, Off, t2);
    assert AllOk(events + [on]);
    OffRemovesAll(events + [on], ctx, t2);
    assert events + [on] + [off] == events + [on, off];
  }

  /** `off` works for a chat if and only if its account id is trimmed. */
  lemma OffWorksIffTrimmed(ctx: Context)
    requires ctx.telegram && ResolveTarget(ctx).Some?
    ensures Reread(ResolveTarget(ctx).value).Some? && (OffWorks(ctx) <==> Trimmed(AccountPart(ctx.account)))
  {
    hide Trimmed, ReadState, Run, TargetKey, ResolveTarget, Reread, StoredKey, AccountPart;
    ResolvedRereads(ctx);
    if Trimmed(AccountPart(ctx.account)) {
      hide HasKey;
      forall events, t1, t2 | AllOk(events)
        ensures !HasKey(ReadState(Run(events + [Command(ctx, On, t1), Command(ctx, Off, t2)])).subscribers, StoredKey(ctx))
      {
        TrimmedOffWorks(ctx, events, t1, t2);
      }
    } else {
      UntrimmedOffFails(ctx, 1, 2);
      var on, off := Command(ctx, On, 1), Command(ctx, Off, 2);
      assert AllOk([]) && [] + [on, off] == [on, off];
      assert HasKey(ReadState(Run([] + [on, off])).subscribers, StoredKey(ctx));
    }
  }
}
