/** Which messages a poll sends and what it records, told from stored times, request times and the channel. */
module NotifierMessages {
  import opened Results
  import opened Sequences
  import opened Text
  import opened OrderedMaps
  import opened NotifierKeys
  import opened PairNotifier
  import opened NotifierRuns
  import opened NotifierDelivery
  import opened NotifierArming
  import opened NotifierPolls

  /** A one-shot subscriber hears of requests dated 1 ms or later, and no earlier than its subscription. */
  ghost predicate Hears(s: Subscription, request: Request) {
    s.mode == Persistent
    || (request.ts.Some? && request.ts.value >= 1.0 && request.ts.value >= s.addedAtMs as real)
  }

  lemma HearsIff(s: Subscription, request: Request)
    ensures ShouldNotify(s, request) <==> Hears(s, request)
  {
    if request.ts.Some? {
      TruncExact(request.ts.value);
      hide Trunc;
    }
  }

  ghost predicate Reached(state: State, e: Event, m: nat)
    requires e.Poll? && m < |e.pending|
  {
    exists k :: 0 <= k < |state.subscribers| && Hears(state.subscribers[k], e.pending[m]) && e.channel(m, k)
  }

  lemma ReachedIff(state: State, e: Event, m: nat)
    requires e.Poll? && m < |e.pending|
    ensures Delivered(state.subscribers, e.pending[m], m, e.channel) <==> Reached(state, e, m)
  {
    hide Hears, ShouldNotify;
    forall k | 0 <= k < |state.subscribers|
      ensures Sent(state.subscribers, e.pending[m], m, e.channel, k)
          <==> Hears(state.subscribers[k], e.pending[m]) && e.channel(m, k)
    {
      HearsIff(state.subscribers[k], e.pending[m]);
    }
  }

  /** The request was announced at a time other than 0, at most 24 hours ago. */
  ghost predicate OnFile(state: State, r: string, now: int) {
    exists ts :: (r, ts) in state.notified && ts != 0 && now - ts <= 86_400_000
  }

  lemma GetIsMember(notified: Notified, r: string, ts: int)
    requires NoDuplicates(KeysOf(notified))
    ensures (r, ts) in notified <==> Get(notified, r) == Some(ts)
  {
    GetPlace(notified, r);
    if (r, ts) in notified {
      var i :| 0 <= i < |notified| && notified[i] == (r, ts);
      GetAt(notified, i);
    }
  }

  lemma OnFileIff(state: State, e: Event, r: string)
    requires e.Poll? && IsPending(e.pending, r) && NoDuplicates(KeysOf(state.notified))
    ensures Seen(SweptNotified(state.notified, e.pending, e.now), r) <==> OnFile(state, r, e.now)
  {
    hide IsPending, SweptNotified, Get;
    GetSwept(state.notified, e.pending, e.now, r);
    forall ts ensures (r, ts) in state.notified <==> Get(state.notified, r) == Some(ts) {
      GetIsMember(state.notified, r, ts);
    }
  }

  /** Before the n-th request the poll has announced one with this id. */
  ghost predicate Earlier(state: State, e: Event, n: nat, r: string)
    requires e.Poll? && n <= |e.pending|
  {
    e.now != 0 && exists m :: 0 <= m < n && e.pending[m].requestId == r && Reached(state, e, m)
  }

  lemma {:induction false} SeenUpTo(state: State, e: Event, n: nat, r: string)
    requires e.Poll? && n <= |e.pending|
    ensures var start := SweptNotified(state.notified, e.pending, e.now);
      Seen(Notify(start, state.subscribers, e.pending, n, e.now, e.channel).notified, r)
      <==> Seen(start, r) || Earlier(state, e, n, r)
  {
    hide SweptNotified, Delivered, OnceKeys, Put, Get, Reached, IsPending;
    if n > 0 {
      SeenUpTo(state, e, n - 1, r);
      var start := SweptNotified(state.notified, e.pending, e.now);
      var before := Notify(start, state.subscribers, e.pending, n - 1, e.now, e.channel).notified;
      GetPut(before, e.pending[n-1].requestId, e.now, r);
      ReachedIff(state, e, n - 1);
    }
  }

  /**
   * The poll sends request n to subscriber j exactly if j hears of it and the message goes through, no valid record of
   * its id is on file, and the same poll has not announced that id before.
   */
  lemma SendsSpelledOut(state: State, e: Event, n: nat, j: nat)
    requires e.Poll? && NoDuplicates(KeysOf(state.notified))
    ensures Sends(state, e, n, j) <==>
      && n < |e.pending| && j < |state.subscribers|
      && Hears(state.subscribers[j], e.pending[n]) && e.channel(n, j)
      && !OnFile(state, e.pending[n].requestId, e.now)
      && !Earlier(state, e, n, e.pending[n].requestId)
  {
    if n < |e.pending| && j < |state.subscribers| {
      SeenUpTo(state, e, n, e.pending[n].requestId);
      OnFileIff(state, e, e.pending[n].requestId);
      HearsIff(state.subscribers[j], e.pending[n]);
    }
    hide Notify, SweptNotified, Seen, ShouldNotify, Hears, OnFile, Earlier;
  }

  // ----- what the poll leaves -----

  /** The poll announces a request with this id to somebody. */
  ghost predicate AnnouncedNow(state: State, e: Event, n: nat, r: string)
    requires e.Poll? && n <= |e.pending|
  {
    exists m, j: nat :: 0 <= m < n && e.pending[m].requestId == r && Sends(state, e, m, j)
  }

  lemma {:induction false} RecordUpTo(state: State, e: Event, n: nat, r: string)
    requires e.Poll? && n <= |e.pending|
    ensures var start := SweptNotified(state.notified, e.pending, e.now);
      Get(Notify(start, state.subscribers, e.pending, n, e.now, e.channel).notified, r)
        == if AnnouncedNow(state, e, n, r) then Some(e.now) else Get(start, r)
  {
    hide SweptNotified, OnceKeys, Put, Get, Seen, Sent;
    if n > 0 {
      RecordUpTo(state, e, n - 1, r);
      var start, request := SweptNotified(state.notified, e.pending, e.now), e.pending[n-1];
      var before := Notify(start, state.subscribers, e.pending, n - 1, e.now, e.channel).notified;
      GetPut(before, request.requestId, e.now, r);
      if !Seen(before, request.requestId) && Delivered(state.subscribers, request, n - 1, e.channel) {
        var j :| 0 <= j < |state.subscribers| && Sent(state.subscribers, request, n - 1, e.channel, j);
        assert Sends(state, e, n - 1, j);
      } else {
        var m := n - 1;
        assert forall j: nat :: !Sends(state, e, m, j);
      }
    }
  }

  /** After a poll: what it announced carries its time, and of the rest the pending and recent records stay. */
  lemma RecordsAfterPoll(state: State, e: Event, r: string)
    requires e.Poll? && NoDuplicates(KeysOf(state.notified))
    ensures var before: Option<int> := Get(state.notified, r);
      Get(Next(state, e).notified, r) ==
        if AnnouncedNow(state, e, |e.pending|, r) then Some(e.now)
        else if before.Some? && (exists m :: 0 <= m < |e.pending| && e.pending[m].requestId == r)
                && e.now - before.value <= 86_400_000 then before
        else None
  {
    RecordUpTo(state, e, |e.pending|, r);
    GetSwept(state.notified, e.pending, e.now, r);
    hide SweptNotified, Notify, Get, Seen, Sent;
  }

  /** After a poll exactly those are gone whose chat got a message as a one-shot subscriber. */
  lemma SubscribersAfterPoll(state: State, e: Event, s: Subscription)
    requires e.Poll?
    ensures s in Next(state, e).subscribers <==>
      s in state.subscribers
      && !exists n: nat, j: nat ::
           Sends(state, e, n, j) && state.subscribers[j].mode == Once && SameChat(state.subscribers[j].target, s.target)
  {
    FiresIffServes(state, e, s.Key());
    WithoutMembers(state.subscribers, PollProgress(state, e.pending, e.now, e.channel).onceDelivered, s);
    hide PollProgress, Without, Sent, Notify, Seen;
    forall j | 0 <= j < |state.subscribers|
      ensures state.subscribers[j].Key() == s.Key() <==> SameChat(state.subscribers[j].target, s.target)
    {
      TargetKeysAgree(state.subscribers[j].target, s.target);
    }
    hide TargetKey, SameChat;
  }

  /** Reading keeps request ids apart, so every state a poll reads is one these facts hold of. */
  lemma {:induction false} ReadIdsDistinct(notified: Notified)
    ensures NoDuplicates(KeysOf(ReadNotified(notified)))
  {
    if notified != [] {
      var front, last := notified[..|notified|-1], notified[|notified|-1];
      ReadIdsDistinct(front);
      PutDistinct(ReadNotified(front), Trim(last.0), last.1);
    }
  }

  lemma {:induction false} PutDistinct(notified: Notified, r: string, ts: int)
    requires NoDuplicates(KeysOf(notified))
    ensures NoDuplicates(KeysOf(Put(notified, r, ts)))
  {
    if r !in KeysOf(notified) {
      PutNew(notified, r, ts);
      assert KeysOf(notified + [(r, ts)]) == KeysOf(notified) + [r];
      NoDuplicatesConcat(KeysOf(notified), [r]);
    } else {
      PutPresent(notified, r, ts);
    }
  }
}
