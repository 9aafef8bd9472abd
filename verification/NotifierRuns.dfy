/** Invariants of the pairing notifier over whole runs of polls and commands. */
module NotifierRuns {
  import opened Results
  import opened Sequences
  import opened Text
  import opened OrderedMaps
  import opened NotifierKeys
  import opened PairNotifier

  ghost predicate SettledTarget(t: Target) {
    t.to != "" && Trimmed(t.to) && Trimmed(AccountPart(t.account))
  }

  ghost predicate UniqueKeys(subscribers: seq<Subscription>) {
    forall i, j :: 0 <= i < j < |subscribers| ==> subscribers[i].Key() != subscribers[j].Key()
  }

  ghost predicate SubscribersOk(subscribers: seq<Subscription>) {
    UniqueKeys(subscribers) && forall i :: 0 <= i < |subscribers| ==> SettledTarget(subscribers[i].target)
  }

  ghost predicate EntryOk(e: (string, int)) {
    e.0 != "" && Trimmed(e.0) && e.1 > 0
  }

  ghost predicate NotifiedOk(notified: Notified) {
    NoDuplicates(KeysOf(notified)) && forall i :: 0 <= i < |notified| ==> EntryOk(notified[i])
  }

  ghost predicate StateOk(s: State) {
    SubscribersOk(s.subscribers) && NotifiedOk(s.notified)
  }

  /** Account ids and request ids without outer space, and a positive clock. */
  ghost predicate EventOk(e: Event) {
    match e
    case Poll(pending, now, _) => now > 0 && forall r :: r in pending ==> r.requestId != "" && Trimmed(r.requestId)
    case Command(ctx, _, _) => Trimmed(AccountPart(ctx.account))
  }

  // ----- reading back -----

  lemma RereadSettled(t: Target)
    requires SettledTarget(t)
    ensures Reread(t).Some? && SettledTarget(Reread(t).value) && TargetKey(Reread(t).value) == TargetKey(t)
  {
    RereadKeepsKey(t);
    RereadStable(t);
  }

  /** The same subscriber to every reader: settled, with the same key, mode and time. */
  ghost predicate SameSubscriber(r: Subscription, s: Subscription) {
    SettledTarget(r.target) && r.Key() == s.Key() && r.mode == s.mode && r.addedAtMs == s.addedAtMs
  }

  lemma {:induction false} ReadSubscribersOk(subscribers: seq<Subscription>)
    requires forall i :: 0 <= i < |subscribers| ==> SettledTarget(subscribers[i].target)
    ensures var r := ReadSubscribers(subscribers);
      |r| == |subscribers| && forall i :: 0 <= i < |r| ==> SameSubscriber(r[i], subscribers[i])
  {
    hide SettledTarget, TargetKey, Reread;
    if subscribers != [] {
      ReadSubscribersOk(subscribers[..|subscribers|-1]);
      RereadSettled(subscribers[|subscribers|-1].target);
    }
  }

  lemma {:induction false} ReadNotifiedSame(notified: Notified)
    requires NotifiedOk(notified)
    ensures ReadNotified(notified) == notified
  {
    if notified != [] {
      var front, last := notified[..|notified|-1], notified[|notified|-1];
      assert notified == front + [last];
      KeysPrefix(front, [last]);
      NoDuplicatesSplit(KeysOf(front), KeysOf([last]));
      assert KeysOf([last])[0] == last.0;
      ReadNotifiedSame(front);
      assert EntryOk(last);
      PutNew(front, last.0, last.1);
    }
  }

  lemma ReadStateOk(file: State)
    requires StateOk(file)
    ensures StateOk(ReadState(file)) && ReadState(file).notified == file.notified
  {
    hide SettledTarget, TargetKey, EntryOk;
    ReadSubscribersOk(file.subscribers);
    var r := ReadSubscribers(file.subscribers);
    forall i | 0 <= i < |r| ensures SettledTarget(r[i].target) && r[i].Key() == file.subscribers[i].Key() {
      assert SameSubscriber(r[i], file.subscribers[i]);
    }
    ReadNotifiedSame(file.notified);
  }

  // ----- what commands keep -----

  lemma ResolvedTarget(ctx: Context)
    requires Trimmed(AccountPart(ctx.account)) && ResolveTarget(ctx).Some?
    ensures SettledTarget(ResolveTarget(ctx).value)
  {
    hide OptionalTrimmed, Trimmed;
    OptionalTrimmedOk(ctx.senderId);
    OptionalTrimmedOk(ctx.from);
    OptionalTrimmedOk(ctx.to);
    assert AccountPart(ResolveTarget(ctx).value.account) == AccountPart(ctx.account);
  }

  lemma OptionalTrimmedOk(s: Option<string>)
    ensures Trimmed(OptionalTrimmed(s))
  {
    if s.Some? { TrimIdempotent(s.value); }
  }

  lemma UpsertedOk(subscribers: seq<Subscription>, target: Target, mode: Mode, now: int)
    requires SubscribersOk(subscribers) && SettledTarget(target)
    ensures SubscribersOk(Upserted(subscribers, target, mode, now))
    ensures exists i :: 0 <= i < |Upserted(subscribers, target, mode, now)|
              && Upserted(subscribers, target, mode, now)[i].Key() == TargetKey(target)
              && Upserted(subscribers, target, mode, now)[i].mode == mode
  {
    hide SettledTarget, TargetKey, FindKey;
    var index := FindKey(subscribers, TargetKey(target));
    var after := Upserted(subscribers, target, mode, now);
    if index < 0 {
      assert after[|subscribers|].Key() == TargetKey(target);
    } else {
      assert after[index].Key() == TargetKey(target);
    }
  }

  ghost predicate HasKey(subscribers: seq<Subscription>, key: Key) {
    exists i :: 0 <= i < |subscribers| && subscribers[i].Key() == key
  }

  lemma UnsubscribedAt(subscribers: seq<Subscription>, key: Key, i: nat)
    requires UniqueKeys(subscribers) && i < |subscribers|
    ensures subscribers[i].Key() != key ==> subscribers[i] in Unsubscribed(subscribers, key)
    ensures i < |Unsubscribed(subscribers, key)| ==>
              Unsubscribed(subscribers, key)[i] in subscribers && Unsubscribed(subscribers, key)[i].Key() != key
  {
    hide FindKey, TargetKey;
    var index := FindKey(subscribers, key);
    var after := Unsubscribed(subscribers, key);
    if index >= 0 {
      if i < index {
        assert after[i] == subscribers[i];
      } else if index < i {
        assert after[i - 1] == subscribers[i];
      }
      if i < |after| {
        var k := if i < index then i else i + 1;
        assert after[i] == subscribers[k] && k != index;
        assert subscribers[k].Key() != subscribers[index].Key();
      }
    }
  }

  lemma UnsubscribedShorter(subscribers: seq<Subscription>, key: Key)
    ensures |Unsubscribed(subscribers, key)| <= |subscribers|
  {
  }

  lemma UnsubscribedOk(subscribers: seq<Subscription>, key: Key)
    requires SubscribersOk(subscribers)
    ensures SubscribersOk(Unsubscribed(subscribers, key))
  {
    hide SettledTarget, FindKey, TargetKey;
    var index := FindKey(subscribers, key);
    var after := Unsubscribed(subscribers, key);
    if index >= 0 {
      forall i | 0 <= i < |after| ensures after[i] == subscribers[if i < index then i else i + 1] {}
    }
  }

  /** With unique keys, `off` leaves no subscriber with that key and keeps all others. */
  lemma UnsubscribedGone(subscribers: seq<Subscription>, key: Key)
    requires SubscribersOk(subscribers)
    ensures var after := Unsubscribed(subscribers, key);
      && SubscribersOk(after) && !HasKey(after, key)
      && forall s :: s in after <==> s in subscribers && s.Key() != key
  {
    hide SettledTarget, Unsubscribed, TargetKey;
    UnsubscribedOk(subscribers, key);
    var after := Unsubscribed(subscribers, key);
    UnsubscribedShorter(subscribers, key);
    forall i | 0 <= i < |after| ensures after[i] in subscribers && after[i].Key() != key {
      UnsubscribedAt(subscribers, key, i);
    }
    forall s | s in subscribers && s.Key() != key ensures s in after {
      var i :| 0 <= i < |subscribers| && subscribers[i] == s;
      UnsubscribedAt(subscribers, key, i);
    }
  }

  // ----- what polls keep -----

  lemma {:induction false} WithoutMembers(subscribers: seq<Subscription>, keys: set<Key>, s: Subscription)
    ensures s in Without(subscribers, keys) <==> s in subscribers && s.Key() !in keys
  {
    if subscribers != [] {
      WithoutMembers(subscribers[..|subscribers|-1], keys, s);
      assert subscribers == subscribers[..|subscribers|-1] + [subscribers[|subscribers|-1]];
    }
  }

  lemma {:induction false} WithoutOk(subscribers: seq<Subscription>, keys: set<Key>)
    requires SubscribersOk(subscribers)
    ensures SubscribersOk(Without(subscribers, keys))
  {
    hide SettledTarget;
    if subscribers != [] {
      var front, last := subscribers[..|subscribers|-1], subscribers[|subscribers|-1];
      WithoutOk(front, keys);
      var kept := Without(front, keys);
      forall i | 0 <= i < |kept| ensures kept[i].Key() != last.Key() {
        WithoutMembers(front, keys, kept[i]);
        var j :| 0 <= j < |front| && front[j] == kept[i];
        assert subscribers[j].Key() != subscribers[|subscribers|-1].Key();
      }
    }
  }

  lemma {:induction false} SweptOk(notified: Notified, pending: seq<Request>, now: int)
    requires NotifiedOk(notified)
    ensures NotifiedOk(SweptNotified(notified, pending, now))
    ensures forall k :: k in KeysOf(SweptNotified(notified, pending, now)) ==> k in KeysOf(notified) && IsPending(pending, k)
  {
    hide IsPending, EntryOk;
    if notified != [] {
      var front, last := notified[..|notified|-1], notified[|notified|-1];
      assert notified == front + [last];
      KeysPrefix(front, [last]);
      NoDuplicatesSplit(KeysOf(front), KeysOf([last]));
      assert KeysOf([last]) == [last.0];
      SweptOk(front, pending, now);
      var swept := SweptNotified(front, pending, now);
      KeysPrefix(swept, [last]);
      NoDuplicatesConcat(KeysOf(swept), [last.0]);
      assert swept + [] == swept;
    }
  }

  lemma {:induction false} PutOk(notified: Notified, requestId: string, now: int)
    requires NotifiedOk(notified) && EntryOk((requestId, now))
    ensures NotifiedOk(Put(notified, requestId, now))
  {
    hide EntryOk;
    if notified != [] {
      var tail := notified[1..];
      assert notified == [notified[0]] + tail;
      KeysPrefix([notified[0]], tail);
      NoDuplicatesSplit(KeysOf([notified[0]]), KeysOf(tail));
      assert KeysOf([notified[0]]) == [notified[0].0];
      if notified[0].0 == requestId {
        assert KeysOf(Put(notified, requestId, now)) == KeysOf(notified);
      } else {
        PutOk(tail, requestId, now);
        var after := Put(tail, requestId, now);
        GetPut(tail, requestId, now, notified[0].0);
        KeysPrefix([notified[0]], after);
        NoDuplicatesConcat([notified[0].0], KeysOf(after));
      }
    } else {
      assert KeysOf(Put(notified, requestId, now)) == [requestId];
    }
  }

  lemma {:induction false} NotifyOk(start: Notified, subscribers: seq<Subscription>, pending: seq<Request>, n: nat, now: int, channel: Channel)
    requires n <= |pending| && NotifiedOk(start) && EventOk(Poll(pending, now, channel))
    requires forall k :: k in KeysOf(start) ==> IsPending(pending, k)
    ensures NotifiedOk(Notify(start, subscribers, pending, n, now, channel).notified)
    ensures forall k :: k in KeysOf(Notify(start, subscribers, pending, n, now, channel).notified) ==> IsPending(pending, k)
  {
    hide NotifiedOk, Delivered, OnceKeys, Seen, Put;
    if n > 0 {
      NotifyOk(start, subscribers, pending, n - 1, now, channel);
      var before := Notify(start, subscribers, pending, n - 1, now, channel).notified;
      var id := pending[n-1].requestId;
      assert pending[n-1] in pending;
      PutOk(before, id, now);
      forall k | k in KeysOf(Put(before, id, now)) ensures IsPending(pending, k) {
        GetPut(before, id, now, k);
      }
    }
  }

  lemma PolledOk(state: State, pending: seq<Request>, now: int, channel: Channel)
    requires StateOk(state) && EventOk(Poll(pending, now, channel))
    ensures StateOk(Polled(state, pending, now, channel))
    ensures forall k :: k in KeysOf(Polled(state, pending, now, channel).notified) ==> IsPending(pending, k)
  {
    hide NotifiedOk, SubscribersOk, Notify, IsPending;
    SweptOk(state.notified, pending, now);
    NotifyOk(SweptNotified(state.notified, pending, now), state.subscribers, pending, |pending|, now, channel);
    WithoutOk(state.subscribers, PollProgress(state, pending, now, channel).onceDelivered);
  }

  lemma NextOk(state: State, e: Event)
    requires StateOk(state) && EventOk(e)
    ensures StateOk(Next(state, e))
  {
    hide SubscribersOk, NotifiedOk, ResolveTarget, Upserted, Unsubscribed, Polled, AccountPart, Trimmed;
    match e {
      case Poll(pending, now, channel) => PolledOk(state, pending, now, channel);
      case Command(ctx, action, now) =>
        if ResolveTarget(ctx).Some? {
          var target := ResolveTarget(ctx).value;
          ResolvedTarget(ctx);
          UpsertedOk(state.subscribers, target, Persistent, now);
          UpsertedOk(state.subscribers, target, Once, now);
          UnsubscribedOk(state.subscribers, TargetKey(target));
        }
    }
  }

  // ----- runs -----

  function Run(events: seq<Event>): State {
    if events == [] then State([], []) else FileAfter(Run(events[..|events|-1]), events[|events|-1])
  }

  ghost predicate AllOk(events: seq<Event>) {
    forall i :: 0 <= i < |events| ==> EventOk(events[i])
  }

  lemma FileAfterOk(file: State, e: Event)
    requires StateOk(file) && EventOk(e)
    ensures StateOk(FileAfter(file, e))
  {
    hide StateOk, Next, Writes, ReadState;
    ReadStateOk(file);
    NextOk(ReadState(file), e);
  }

  /** Over every run, the file and what is read from it keep subscriber keys unique. */
  lemma {:induction false} RunOk(events: seq<Event>)
    requires AllOk(events)
    ensures StateOk(Run(events)) && StateOk(ReadState(Run(events)))
  {
    hide FileAfter, EventOk, ReadState;
    if events != [] {
      var front := events[..|events|-1];
      forall i | 0 <= i < |front| ensures EventOk(front[i]) { assert front[i] == events[i]; }
      RunOk(front);
      FileAfterOk(Run(front), events[|events|-1]);
    }
    ReadStateOk(Run(events));
  }

  // ----- skipping the write -----

  lemma {:induction false} NothingDelivered(start: Notified, subscribers: seq<Subscription>, pending: seq<Request>, n: nat, now: int, channel: Channel)
    requires n <= |pending|
    ensures !Notify(start, subscribers, pending, n, now, channel).anyDelivered
        ==> Notify(start, subscribers, pending, n, now, channel).notified == start
  {
    if n > 0 {
      NothingDelivered(start, subscribers, pending, n - 1, now, channel);
    }
  }

  /** A write is skipped only when the event left the state that was read as it was. */
  lemma SkippedWriteIsNoChange(state: State, e: Event)
    requires !Writes(state, e)
    ensures Next(state, e) == state
  {
    match e {
      case Poll(pending, now, channel) =>
        NothingDelivered(SweptNotified(state.notified, pending, now), state.subscribers, pending, |pending|, now, channel);
      case Command(_, _, _) =>
    }
  }

  // ----- persistent subscribers, and `off` -----

  /** A once-delivered key belongs to a one-shot subscriber and a request made after it was armed. */
  ghost predicate OneShotReason(subscribers: seq<Subscription>, pending: seq<Request>, key: Key) {
    exists j, i :: 0 <= j < |subscribers| && 0 <= i < |pending|
      && subscribers[j].Key() == key && subscribers[j].mode == Once
      && RequestTimestampMs(pending[i]).Some? && RequestTimestampMs(pending[i]).value >= subscribers[j].addedAtMs
  }

  lemma {:induction false} OnceDeliveredReason(
    start: Notified, subscribers: seq<Subscription>, pending: seq<Request>, n: nat, now: int, channel: Channel, key: Key)
    requires n <= |pending| && key in Notify(start, subscribers, pending, n, now, channel).onceDelivered
    ensures OneShotReason(subscribers, pending, key)
  {
    hide TargetKey, Delivered, Seen, Put;
    if n > 0 && key !in Notify(start, subscribers, pending, n - 1, now, channel).onceDelivered {
      assert key in OnceKeys(subscribers, pending[n-1], n - 1, channel);
      var j :| 0 <= j < |subscribers| && Sent(subscribers, pending[n-1], n - 1, channel, j)
               && subscribers[j].mode == Once && subscribers[j].Key() == key;
      assert ShouldNotify(subscribers[j], pending[n-1]);
    } else if n > 0 {
      OnceDeliveredReason(start, subscribers, pending, n - 1, now, channel, key);
    }
  }

  /** In every run, a poll never removes a persistent subscriber. */
  lemma PollKeepsPersistent(events: seq<Event>, pending: seq<Request>, now: int, channel: Channel, s: Subscription)
    requires AllOk(events)
    requires s in ReadState(Run(events)).subscribers && s.mode == Persistent
    ensures s in Polled(ReadState(Run(events)), pending, now, channel).subscribers
  {
    hide EventOk, ReadState, SettledTarget, NotifiedOk, Notify, TargetKey, Run;
    var state := ReadState(Run(events));
    var keys := PollProgress(state, pending, now, channel).onceDelivered;
    RunOk(events);
    WithoutMembers(state.subscribers, keys, s);
    if s.Key() in keys {
      OnceDeliveredReason(SweptNotified(state.notified, pending, now), state.subscribers, pending, |pending|, now, channel, s.Key());
    }
  }

  lemma ReadHasKey(subscribers: seq<Subscription>, key: Key)
    requires forall i :: 0 <= i < |subscribers| ==> SettledTarget(subscribers[i].target)
    ensures HasKey(ReadSubscribers(subscribers), key) <==> HasKey(subscribers, key)
  {
    hide SettledTarget, TargetKey, ReadSubscribers;
    ReadSubscribersOk(subscribers);
    var r := ReadSubscribers(subscribers);
    forall i | 0 <= i < |r| ensures r[i].Key() == subscribers[i].Key() {
      assert SameSubscriber(r[i], subscribers[i]);
    }
  }

  lemma UnsubscribedAbsent(subscribers: seq<Subscription>, key: Key)
    requires !HasKey(subscribers, key)
    ensures Unsubscribed(subscribers, key) == subscribers
  {
  }

  /** What the next event reads has exactly the subscriber keys this one left. */
  lemma KeysAfter(file: State, e: Event, key: Key)
    requires StateOk(file) && EventOk(e)
    ensures HasKey(ReadState(FileAfter(file, e)).subscribers, key) <==> HasKey(Next(ReadState(file), e).subscribers, key)
  {
    hide EventOk, Next, Writes, SettledTarget, NotifiedOk, TargetKey, ReadSubscribers, UniqueKeys;
    ReadStateOk(file);
    NextOk(ReadState(file), e);
    ReadHasKey(Next(ReadState(file), e).subscribers, key);
    if !Writes(ReadState(file), e) {
      SkippedWriteIsNoChange(ReadState(file), e);
    }
  }

  /** Reading what was read, written and read again gives the same. */
  lemma {:induction false} ReadTwice(subscribers: seq<Subscription>, s: Subscription)
    requires s in ReadSubscribers(subscribers)
    ensures Reread(s.target) == Some(s.target)
  {
    hide Reread, TargetKey;
    var front, last := ReadSubscribers(subscribers[..|subscribers|-1]), subscribers[|subscribers|-1];
    if s in front {
      ReadTwice(subscribers[..|subscribers|-1], s);
    } else {
      RereadStable(last.target);
    }
  }

  lemma {:induction false} ReadSettledList(subscribers: seq<Subscription>)
    requires forall s :: s in subscribers ==> Reread(s.target) == Some(s.target)
    ensures ReadSubscribers(subscribers) == subscribers
  {
    hide Reread, TargetKey;
    if subscribers != [] {
      var front, last := subscribers[..|subscribers|-1], subscribers[|subscribers|-1];
      assert last in subscribers;
      ReadSettledList(front);
      assert last.(target := last.target) == last && subscribers == front + [last];
    }
  }

  lemma UnsubscribedFrom(subscribers: seq<Subscription>, key: Key, s: Subscription)
    requires s in Unsubscribed(subscribers, key)
    ensures s in subscribers
  {
    hide TargetKey;
  }

  lemma OffReadsBack(file: State, key: Key)
    ensures ReadSubscribers(Unsubscribed(ReadState(file).subscribers, key)) == Unsubscribed(ReadState(file).subscribers, key)
  {
    hide Unsubscribed, ReadSubscribers, Reread;
    var read := ReadState(file).subscribers;
    forall s | s in Unsubscribed(read, key) ensures Reread(s.target) == Some(s.target) {
      UnsubscribedFrom(read, key, s);
      ReadTwice(file.subscribers, s);
    }
    ReadSettledList(Unsubscribed(read, key));
  }

  lemma OffRuns(file: State, ctx: Context, now: int)
    requires StateOk(file) && ctx.telegram && ResolveTarget(ctx).Some?
    ensures var read := ReadState(file);
      ReadState(FileAfter(file, Command(ctx, Off, now)))
        == read.(subscribers := Unsubscribed(read.subscribers, TargetKey(ResolveTarget(ctx).value)))
  {
    hide SettledTarget, TargetKey, ResolveTarget, Unsubscribed, ReadSubscribers, ReadNotified, UniqueKeys, NotifiedOk;
    ReadStateOk(file);
    OffReadsBack(file, TargetKey(ResolveTarget(ctx).value));
    ReadNotifiedSame(file.notified);
  }

  /** In every run, `off` leaves no subscriber with the chat's key, and everything else as it was. */
  lemma OffRemovesAll(events: seq<Event>, ctx: Context, now: int)
    requires AllOk(events) && ctx.telegram && ResolveTarget(ctx).Some?
    ensures var key := TargetKey(ResolveTarget(ctx).value);
      var before := ReadState(Run(events));
      var after := ReadState(Run(events + [Command(ctx, Off, now)]));
      && !HasKey(after.subscribers, key)
      && (forall s :: s in after.subscribers <==> s in before.subscribers && s.Key() != key)
      && after.notified == before.notified
      && (!HasKey(before.subscribers, key) ==> after == before)
  {
    hide EventOk, SettledTarget, NotifiedOk, TargetKey, ResolveTarget, Unsubscribed, ReadSubscribers, ReadNotified, HasKey;
    hide FileAfter, UniqueKeys;
    var e := Command(ctx, Off, now);
    var file, key := Run(events), TargetKey(ResolveTarget(ctx).value);
    assert (events + [e])[..|events|] == events;
    assert Run(events + [e]) == FileAfter(file, e);
    RunOk(events);
    OffRuns(file, ctx, now);
    UnsubscribedGone(ReadState(file).subscribers, key);
    if !HasKey(ReadState(file).subscribers, key) {
      UnsubscribedAbsent(ReadState(file).subscribers, key);
    }
  }
}
