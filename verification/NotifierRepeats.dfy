/** Where requests are announced again too soon: exactly for ids with outer space, and for the empty id. */
module NotifierRepeats {
  import opened Results
  import opened Text
  import opened OrderedMaps
  import opened NotifierKeys
  import opened PairNotifier
  import opened NotifierRuns
  import opened NotifierDelivery

  /** Announcements of r in this run are more than 24 hours apart while r stays pending. */
  ghost predicate Apart(events: seq<Event>, r: string) {
    forall i: nat, ni: nat, j: nat, nj: nat ::
      (&& i < j < |events|
       && Announces(StateAt(events, i), events[i], ni, r) && Announces(StateAt(events, j), events[j], nj, r)
       && StaysPending(events, i, j, r)) ==> TimeOf(events[j]) - TimeOf(events[i]) > NOTIFY_MAX_SEEN_AGE_MS
  }

  ghost predicate StaysPending(events: seq<Event>, i: nat, j: nat, r: string)
    requires j <= |events|
  {
    forall m :: i < m < j && events[m].Poll? ==> IsPending(events[m].pending, r)
  }

  /** Runs in which all ids but one request id are trimmed. */
  ghost predicate OkButId(r: string, events: seq<Event>) {
    forall k :: 0 <= k < |events| ==>
      if events[k].Poll? then
        events[k].now > 0
        && forall q :: q in events[k].pending ==> q.requestId == r || (q.requestId != "" && Trimmed(q.requestId))
      else EventOk(events[k])
  }

  predicate Always(i: nat, j: nat) {
    true
  }

  /** A poll that sees r pending and delivers everything. */
  function PollFor(r: string, now: int): Event {
    Poll([Request(r, None)], now, Always)
  }

  lemma AnnouncesUnrecorded(state: State, r: string, now: int)
    requires |state.subscribers| == 1 && state.subscribers[0].mode == Persistent && r !in KeysOf(state.notified)
    ensures Announces(state, PollFor(r, now), 0, r)
  {
    hide TargetKey;
    var e := PollFor(r, now);
    SweptKeys(state.notified, e.pending, now, r);
    GetPlace(SweptNotified(state.notified, e.pending, now), r);
    assert Sent(state.subscribers, e.pending[0], 0, e.channel, 0);
  }

  lemma {:induction false} SweptKeys(notified: Notified, pending: seq<Request>, now: int, r: string)
    ensures r in KeysOf(SweptNotified(notified, pending, now)) ==> r in KeysOf(notified)
  {
    if notified != [] {
      var front, last := notified[..|notified|-1], notified[|notified|-1];
      assert notified == front + [last] && KeysOf([last]) == [last.0];
      KeysPrefix(front, [last]);
      SweptKeys(front, pending, now, r);
      var swept := SweptNotified(front, pending, now);
      KeysPrefix(swept, [last]);
      assert swept + [] == swept;
      assert SweptNotified(notified, pending, now) == swept || SweptNotified(notified, pending, now) == swept + [last];
    }
  }

  lemma PollKeepsOnly(state: State, r: string, now: int)
    requires |state.subscribers| == 1 && state.subscribers[0].mode == Persistent
    ensures Next(state, PollFor(r, now)).subscribers == state.subscribers
  {
    hide TargetKey, Seen, SweptNotified, Put, Delivered, Without;
    var e := PollFor(r, now);
    var start := SweptNotified(state.notified, e.pending, now);
    assert OnceKeys(state.subscribers, e.pending[0], 0, e.channel) == {};
    var before := Notify(start, state.subscribers, e.pending, 0, now, e.channel);
    assert before.onceDelivered == {};
    assert {} + OnceKeys(state.subscribers, e.pending[0], 0, e.channel) == {};
    assert Notify(start, state.subscribers, e.pending, 1, now, e.channel).onceDelivered == {};
    WithoutNone(state.subscribers);
  }

  const ANY_CHAT := Context(true, Some("chat"), None, None, None, NoThread)
  const ANY_TARGET := Target("chat", None, NoThread)

  lemma AnyChatResolves()
    ensures ResolveTarget(ANY_CHAT) == Some(ANY_TARGET) && Reread(ANY_TARGET) == Some(ANY_TARGET)
    ensures EventOk(Command(ANY_CHAT, On, 1))
  {
    hide Trim;
    assert Trimmed("chat") && Trimmed("");
    assert Trim("chat") == "chat" && Trim("") == "";
  }

  function Repeating(r: string): seq<Event> {
    [Command(ANY_CHAT, On, 1), PollFor(r, 1), PollFor(r, 2)]
  }

  lemma OnlySubscriberStays(file: State, s: Subscription, r: string, now: int)
    requires file.subscribers == [s] && ReadSubscribers([s]) == [s] && s.mode == Persistent
    ensures FileAfter(file, PollFor(r, now)).subscribers == [s]
  {
    hide ReadSubscribers, ReadNotified, TargetKey;
    PollKeepsOnly(ReadState(file), r, now);
    hide Next, Writes;
  }

  lemma RepeatingStates(r: string)
    ensures var s := Subscription(ANY_TARGET, Persistent, 1);
      StateAt(Repeating(r), 1) == State([s], []) && StateAt(Repeating(r), 2).subscribers == [s]
  {
    var s, events := Subscription(ANY_TARGET, Persistent, 1), Repeating(r);
    AnyChatResolves();
    hide ReadSubscribers, Reread, ResolveTarget, TargetKey, FileAfter, Run;
    FirstOn(ANY_CHAT, 1);
    RunTwo(events[0], events[1]);
    ReadOne(s);
    ReadTwo(s, s);
    OnlySubscriberStays(State([s], []), s, r, 1);
    assert events[..1] == [events[0]] && events[..2] == [events[0], events[1]];
  }

  lemma RepeatingAnnounces(r: string)
    requires r == "" || !Trimmed(r)
    ensures Announces(StateAt(Repeating(r), 1), Repeating(r)[1], 0, r)
    ensures Announces(StateAt(Repeating(r), 2), Repeating(r)[2], 0, r)
  {
    hide Trimmed, Announces, Run, ReadSubscribers;
    RepeatingStates(r);
    AnnouncesUnrecorded(StateAt(Repeating(r), 1), r, 1);
    ReadKeysTrimmed(Run(Repeating(r)[..2]).notified, r);
    AnnouncesUnrecorded(StateAt(Repeating(r), 2), r, 2);
  }

  lemma TrimmedApart(events: seq<Event>, r: string)
    requires r != "" && Trimmed(r) && OkButId(r, events) && ClockNeverBack(events)
    ensures Apart(events, r)
  {
    hide StateAt, Announces, Trimmed;
    assert AllOk(events);
    hide OkButId, EventOk, ClockNeverBack, AllOk;
    forall i: nat, ni: nat, j: nat, nj: nat |
      (&& i < j < |events|
       && Announces(StateAt(events, i), events[i], ni, r) && Announces(StateAt(events, j), events[j], nj, r)
       && StaysPending(events, i, j, r))
      ensures TimeOf(events[j]) - TimeOf(events[i]) > NOTIFY_MAX_SEEN_AGE_MS
    {
      AnnouncementsApart(events, i, ni, j, nj, r);
    }
  }

  lemma RepeatingOk(r: string)
    ensures OkButId(r, Repeating(r)) && ClockNeverBack(Repeating(r))
  {
    AnyChatResolves();
    hide Trimmed, ResolveTarget, Reread;
  }

  lemma RepeatingNotApart(r: string)
    requires r == "" || !Trimmed(r)
    ensures !Apart(Repeating(r), r)
  {
    RepeatingAnnounces(r);
    hide StateAt, Announces, Trimmed;
    var events := Repeating(r);
    assert StaysPending(events, 1, 2, r);
    assert TimeOf(events[2]) - TimeOf(events[1]) == 1;
  }

  /** Announcements of r are more than 24 hours apart in all such runs if and only if r is trimmed and not empty. */
  lemma ApartIffTrimmed(r: string)
    ensures (forall events :: OkButId(r, events) && ClockNeverBack(events) ==> Apart(events, r))
        <==> (r != "" && Trimmed(r))
  {
    hide Trimmed, Apart, OkButId, ClockNeverBack;
    if r != "" && Trimmed(r) {
      forall events | OkButId(r, events) && ClockNeverBack(events) ensures Apart(events, r) {
        TrimmedApart(events, r);
      }
    } else {
      RepeatingOk(r);
      RepeatingNotApart(r);
    }
  }
}
