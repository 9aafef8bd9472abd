/** Where the subscribers of a run come from, and for which requests a one-shot subscription can fire. */
module NotifierArming {
  import opened NotifierKeys
  import opened PairNotifier
  import opened NotifierRuns
  import opened NotifierDelivery

  /** The command that gave a subscriber its mode and its time. */
  ghost predicate SubscribedBy(e: Event, key: Key, mode: Mode, addedAtMs: int) {
    && e.Command? && e.action == (if mode == Once then Arm else On) && e.now == addedAtMs
    && e.ctx.telegram && ResolveTarget(e.ctx).Some? && TargetKey(ResolveTarget(e.ctx).value) == key
  }

  ghost predicate Explained(events: seq<Event>, s: Subscription) {
    exists e :: e in events && SubscribedBy(e, s.Key(), s.mode, s.addedAtMs)
  }

  ghost predicate AllExplained(events: seq<Event>, subscribers: seq<Subscription>) {
    forall i :: 0 <= i < |subscribers| ==> Explained(events, subscribers[i])
  }

  lemma ExplainedLater(events: seq<Event>, e: Event, s: Subscription)
    requires Explained(events, s)
    ensures Explained(events + [e], s)
  {
    hide SubscribedBy, TargetKey;
    var c :| c in events && SubscribedBy(c, s.Key(), s.mode, s.addedAtMs);
    assert c in events + [e];
  }

  lemma UpsertedFrom(subscribers: seq<Subscription>, target: Target, mode: Mode, now: int, i: nat)
    requires i < |Upserted(subscribers, target, mode, now)|
    ensures Upserted(subscribers, target, mode, now)[i] in subscribers
            || Upserted(subscribers, target, mode, now)[i] == Subscription(target, mode, now)
  {
    hide TargetKey;
  }

  lemma NewExplained(events: seq<Event>, e: Event, mode: Mode)
    requires e.Command? && e.action == (if mode == Once then Arm else On)
    requires e.ctx.telegram && ResolveTarget(e.ctx).Some?
    ensures Explained(events + [e], Subscription(ResolveTarget(e.ctx).value, mode, e.now))
  {
    hide TargetKey, ResolveTarget;
    var s := Subscription(ResolveTarget(e.ctx).value, mode, e.now);
    assert (events + [e])[|events|] == e;
    assert SubscribedBy(e, s.Key(), s.mode, s.addedAtMs);
  }

  lemma NextExplained(events: seq<Event>, state: State, e: Event, i: nat)
    requires AllExplained(events, state.subscribers) && i < |Next(state, e).subscribers|
    ensures Explained(events + [e], Next(state, e).subscribers[i])
  {
    hide TargetKey, ResolveTarget, Explained, Upserted, Unsubscribed, Without, PollProgress;
    var after := Next(state, e).subscribers;
    match e {
      case Poll(pending, now, channel) =>
        WithoutMembers(state.subscribers, PollProgress(state, pending, now, channel).onceDelivered, after[i]);
      case Command(ctx, action, now) =>
        if ctx.telegram && ResolveTarget(ctx).Some? {
          var target := ResolveTarget(ctx).value;
          if action == On {
            UpsertedFrom(state.subscribers, target, Persistent, now, i);
            NewExplained(events, e, Persistent);
          } else if action == Arm {
            UpsertedFrom(state.subscribers, target, Once, now, i);
            NewExplained(events, e, Once);
          } else if action == Off {
            UnsubscribedFrom(state.subscribers, TargetKey(target), after[i]);
          }
        }
    }
    if after[i] in state.subscribers {
      var j :| 0 <= j < |state.subscribers| && state.subscribers[j] == after[i];
      ExplainedLater(events, e, state.subscribers[j]);
    }
  }

  lemma ReadExplained(events: seq<Event>, subscribers: seq<Subscription>)
    requires AllExplained(events, subscribers)
    requires forall i :: 0 <= i < |subscribers| ==> SettledTarget(subscribers[i].target)
    ensures AllExplained(events, ReadSubscribers(subscribers))
  {
    hide SettledTarget, TargetKey, ReadSubscribers, SubscribedBy;
    ReadSubscribersOk(subscribers);
    var r := ReadSubscribers(subscribers);
    forall i | 0 <= i < |r| ensures Explained(events, r[i]) {
      assert SameSubscriber(r[i], subscribers[i]) && Explained(events, subscribers[i]);
    }
  }

  /** In every run each subscriber stems from a command of its chat, with that command's mode and time. */
  lemma {:induction false} RunExplained(events: seq<Event>)
    requires AllOk(events)
    ensures AllExplained(events, Run(events).subscribers)
    ensures AllExplained(events, ReadState(Run(events)).subscribers)
  {
    hide EventOk, TargetKey, ReadSubscribers, Explained, SettledTarget, UniqueKeys, NotifiedOk, Next, Writes;
    RunOk(events);
    if events != [] {
      var front, e := events[..|events|-1], events[|events|-1];
      assert events == front + [e];
      forall i | 0 <= i < |front| ensures EventOk(front[i]) { assert front[i] == events[i]; }
      RunExplained(front);
      var read := ReadState(Run(front));
      if Writes(read, e) {
        forall i | 0 <= i < |Next(read, e).subscribers| ensures Explained(events, Next(read, e).subscribers[i]) {
          NextExplained(front, read, e, i);
        }
      } else {
        forall i | 0 <= i < |Run(front).subscribers| ensures Explained(events, Run(front).subscribers[i]) {
          ExplainedLater(front, e, Run(front).subscribers[i]);
        }
      }
    }
    ReadExplained(events, Run(events).subscribers);
  }

  /** The poll sends the n-th pending request to the j-th subscriber. */
  ghost predicate Sends(state: State, e: Event, n: nat, j: nat) {
    && e.Poll? && n < |e.pending| && j < |state.subscribers|
    && !Seen(Notify(SweptNotified(state.notified, e.pending, e.now), state.subscribers, e.pending, n, e.now, e.channel).notified,
             e.pending[n].requestId)
    && Sent(state.subscribers, e.pending[n], n, e.channel, j)
  }

  /** Every request the poll sends to the subscriber with this key was made at `time` or later. */
  ghost predicate SendsSince(state: State, e: Event, key: Key, time: int)
    requires e.Poll?
  {
    forall n: nat, j: nat :: Sends(state, e, n, j) && state.subscribers[j].Key() == key ==> MadeSince(e.pending[n], time)
  }

  predicate MadeSince(request: Request, time: int) {
    RequestTimestampMs(request).Some? && RequestTimestampMs(request).value >= time
  }

  lemma OnceSendsSince(state: State, e: Event, j: nat)
    requires e.Poll? && UniqueKeys(state.subscribers) && j < |state.subscribers| && state.subscribers[j].mode == Once
    ensures SendsSince(state, e, state.subscribers[j].Key(), state.subscribers[j].addedAtMs)
  {
    hide TargetKey, Seen, Notify, SweptNotified;
    forall n: nat, k: nat | Sends(state, e, n, k) && state.subscribers[k].Key() == state.subscribers[j].Key()
      ensures MadeSince(e.pending[n], state.subscribers[j].addedAtMs)
    {
      assert k == j;
      assert ShouldNotify(state.subscribers[k], e.pending[n]);
    }
  }

  lemma ArmingOf(events: seq<Event>, i: nat, s: Subscription) returns (m: nat)
    requires i <= |events| && Explained(events[..i], s)
    ensures m < i && SubscribedBy(events[m], s.Key(), s.mode, s.addedAtMs)
  {
    hide SubscribedBy, TargetKey;
    var c :| c in events[..i] && SubscribedBy(c, s.Key(), s.mode, s.addedAtMs);
    m :| 0 <= m < i && events[..i][m] == c;
  }

  lemma FiringSubscriber(state: State, e: Event, key: Key) returns (j: nat)
    requires FiresFor(state, e, key)
    ensures j < |state.subscribers| && state.subscribers[j].Key() == key && state.subscribers[j].mode == Once
  {
    FiringNeedsSubscriber(state, e, key);
    hide TargetKey, FiresFor;
    j :| 0 <= j < |state.subscribers| && state.subscribers[j].Key() == key && state.subscribers[j].mode == Once;
  }

  /**
   * When a one-shot subscription fires, the chat armed it before, and every request sent to it was made at or
   * after that arming.
   */
  lemma OneShotOnlyAfterArming(events: seq<Event>, i: nat, key: Key) returns (m: nat)
    requires AllOk(events) && i < |events| && FiresFor(StateAt(events, i), events[i], key)
    ensures m < i && SubscribedBy(events[m], key, Once, TimeOf(events[m]))
    ensures SendsSince(StateAt(events, i), events[i], key, TimeOf(events[m]))
  {
    hide TargetKey, Explained, SendsSince, AllOk, SettledTarget, NotifiedOk, ReadState, UniqueKeys;
    var state := StateAt(events, i);
    var j := FiringSubscriber(state, events[i], key);
    PrefixOk(events, i);
    RunOk(events[..i]);
    RunExplained(events[..i]);
    m := ArmingOf(events, i, state.subscribers[j]);
    OnceSendsSince(state, events[i], j);
  }
}
