/** What a poll does, in terms of what it read, what is pending and which messages go through. */
module NotifierPolls {
  import opened OrderedMaps
  import opened NotifierKeys
  import opened PairNotifier
  import opened NotifierRuns
  import opened NotifierDelivery
  import opened NotifierArming

  // ----- one-shot subscriptions -----

  /** The poll sends something to a one-shot subscriber with this key. */
  ghost predicate ServesOnce(state: State, e: Event, key: Key) {
    exists n: nat, j: nat :: Sends(state, e, n, j) && state.subscribers[j].mode == Once && state.subscribers[j].Key() == key
  }

  /** The same among the first n pending requests. */
  ghost predicate ServedBefore(state: State, e: Event, n: nat, key: Key) {
    exists m: nat, j: nat ::
      m < n && Sends(state, e, m, j) && state.subscribers[j].mode == Once && state.subscribers[j].Key() == key
  }

  lemma ServedNext(state: State, e: Event, n: nat, key: Key)
    requires e.Poll? && n < |e.pending|
    ensures var start := SweptNotified(state.notified, e.pending, e.now);
      var before := Notify(start, state.subscribers, e.pending, n, e.now, e.channel).notified;
      ServedBefore(state, e, n + 1, key) <==>
        (ServedBefore(state, e, n, key)
         || (!Seen(before, e.pending[n].requestId) && key in OnceKeys(state.subscribers, e.pending[n], n, e.channel)))
  {
    hide TargetKey, Seen, Notify, SweptNotified, Sent;
    if ServedBefore(state, e, n + 1, key) && !ServedBefore(state, e, n, key) {
      var m: nat, j: nat :|
        m < n + 1 && Sends(state, e, m, j) && state.subscribers[j].mode == Once && state.subscribers[j].Key() == key;
      assert m == n;
    }
    if key in OnceKeys(state.subscribers, e.pending[n], n, e.channel) {
      var j :| 0 <= j < |state.subscribers| && Sent(state.subscribers, e.pending[n], n, e.channel, j)
               && state.subscribers[j].mode == Once && state.subscribers[j].Key() == key;
      var start := SweptNotified(state.notified, e.pending, e.now);
      if !Seen(Notify(start, state.subscribers, e.pending, n, e.now, e.channel).notified, e.pending[n].requestId) {
        assert Sends(state, e, n, j);
      }
    }
  }

  lemma {:induction false} ServedUpTo(state: State, e: Event, n: nat, key: Key)
    requires e.Poll? && n <= |e.pending|
    ensures var start := SweptNotified(state.notified, e.pending, e.now);
      key in Notify(start, state.subscribers, e.pending, n, e.now, e.channel).onceDelivered
      <==> ServedBefore(state, e, n, key)
  {
    hide TargetKey, Seen, SweptNotified, Sends, Delivered, OnceKeys, Put;
    if n > 0 {
      ServedUpTo(state, e, n - 1, key);
      ServedNext(state, e, n - 1, key);
      hide ServedBefore;
    }
  }

  /** A key is struck off by a poll exactly when the poll sends something to a one-shot subscriber with it. */
  lemma FiresIffServes(state: State, e: Event, key: Key)
    requires e.Poll?
    ensures FiresFor(state, e, key) <==> ServesOnce(state, e, key)
  {
    ServedUpTo(state, e, |e.pending|, key);
    hide TargetKey, Notify, SweptNotified, Sent, Seen;
  }

  /** After a poll a chat is subscribed exactly if it was, and got no one-shot message. */
  lemma PollKeepsKey(state: State, e: Event, key: Key)
    requires e.Poll?
    ensures HasKey(Next(state, e).subscribers, key) <==> HasKey(state.subscribers, key) && !ServesOnce(state, e, key)
  {
    FiresIffServes(state, e, key);
    hide TargetKey, ServesOnce, PollProgress, Without;
    var keys := PollProgress(state, e.pending, e.now, e.channel).onceDelivered;
    var after := Without(state.subscribers, keys);
    forall i | 0 <= i < |state.subscribers| ensures state.subscribers[i] in after <==> state.subscribers[i].Key() !in keys {
      WithoutMembers(state.subscribers, keys, state.subscribers[i]);
    }
    forall i | 0 <= i < |after| ensures after[i] in state.subscribers && after[i].Key() !in keys {
      WithoutMembers(state.subscribers, keys, after[i]);
    }
  }

  // ----- writing -----

  /** Some record is of a request no longer pending, or too old. */
  predicate Forgets(state: State, e: Event)
    requires e.Poll?
  {
    exists i :: 0 <= i < |state.notified| && !StillSeen(e.pending, e.now, state.notified[i].0, state.notified[i].1)
  }

  /** Some pending request without a valid record reaches a subscriber. */
  predicate Reaches(state: State, e: Event)
    requires e.Poll?
  {
    exists n :: 0 <= n < |e.pending| && ReachesWith(state, e, n)
  }

  predicate ReachesWith(state: State, e: Event, n: nat)
    requires e.Poll? && n < |e.pending|
  {
    !Seen(SweptNotified(state.notified, e.pending, e.now), e.pending[n].requestId)
    && Delivered(state.subscribers, e.pending[n], n, e.channel)
  }

  lemma {:induction false} SweptIffForgets(notified: Notified, pending: seq<Request>, now: int)
    ensures |SweptNotified(notified, pending, now)| <= |notified|
    ensures SweptNotified(notified, pending, now) != notified
      <==> exists i :: 0 <= i < |notified| && !StillSeen(pending, now, notified[i].0, notified[i].1)
  {
    hide StillSeen;
    if notified != [] {
      var front, last := notified[..|notified|-1], notified[|notified|-1];
      assert notified == front + [last];
      SweptIffForgets(front, pending, now);
      var swept := SweptNotified(front, pending, now);
      if StillSeen(pending, now, last.0, last.1) {
        assert (swept + [last])[..|swept|] == swept;
      }
    }
  }

  lemma {:induction false} AnyDeliveredIff(
    start: Notified, subscribers: seq<Subscription>, pending: seq<Request>, n: nat, now: int, channel: Channel)
    requires n <= |pending|
    ensures Notify(start, subscribers, pending, n, now, channel).anyDelivered <==>
      exists m :: 0 <= m < n && !Seen(start, pending[m].requestId) && Delivered(subscribers, pending[m], m, channel)
    ensures !Notify(start, subscribers, pending, n, now, channel).anyDelivered ==>
      Notify(start, subscribers, pending, n, now, channel).onceDelivered == {}
  {
    hide Seen, Put;
    if n > 0 {
      AnyDeliveredIff(start, subscribers, pending, n - 1, now, channel);
      NothingDelivered(start, subscribers, pending, n - 1, now, channel);
      NoKeysUndelivered(subscribers, pending[n-1], n - 1, channel);
      hide Delivered, OnceKeys;
    }
  }

  lemma NoKeysUndelivered(subscribers: seq<Subscription>, request: Request, i: nat, channel: Channel)
    ensures !Delivered(subscribers, request, i, channel) ==> OnceKeys(subscribers, request, i, channel) == {}
  {
    hide TargetKey;
  }

  lemma ReachesIffDelivered(state: State, e: Event)
    requires e.Poll?
    ensures Reaches(state, e) <==>
      Notify(SweptNotified(state.notified, e.pending, e.now), state.subscribers, e.pending, |e.pending|, e.now, e.channel).anyDelivered
  {
    var start := SweptNotified(state.notified, e.pending, e.now);
    AnyDeliveredIff(start, state.subscribers, e.pending, |e.pending|, e.now, e.channel);
    hide Seen, Delivered, SweptNotified, Notify;
    forall n | 0 <= n < |e.pending|
      ensures ReachesWith(state, e, n)
          <==> !Seen(start, e.pending[n].requestId) && Delivered(state.subscribers, e.pending[n], n, e.channel)
    {
    }
    if n :| 0 <= n < |e.pending| && !Seen(start, e.pending[n].requestId)
            && Delivered(state.subscribers, e.pending[n], n, e.channel) {
      assert ReachesWith(state, e, n);
    }
  }

  lemma NobodyReached(state: State, e: Event)
    requires e.Poll?
    ensures state.subscribers == [] ==> !Reaches(state, e)
  {
    hide Seen, SweptNotified;
  }

  /** A poll writes exactly when it forgets a record or a request without one reaches somebody. */
  lemma PollWritesIff(state: State, e: Event)
    requires e.Poll?
    ensures Writes(state, e) <==> Forgets(state, e) || Reaches(state, e)
  {
    var start := SweptNotified(state.notified, e.pending, e.now);
    SweptIffForgets(state.notified, e.pending, e.now);
    ReachesIffDelivered(state, e);
    AnyDeliveredIff(start, state.subscribers, e.pending, |e.pending|, e.now, e.channel);
    WithoutNone(state.subscribers);
    NobodyReached(state, e);
    hide TargetKey, Seen, Delivered, StillSeen, SweptNotified, Notify, Without, Reaches;
  }
}
