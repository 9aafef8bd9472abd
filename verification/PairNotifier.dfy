/**
 * The pairing notifier of `extensions/device-pair/notify.ts`: polls and commands over the
 * subscribers and the notified request ids of one state file. Each poll and command is atomic.
 */
module PairNotifier {
  import opened Results
  import opened Text
  import opened OrderedMaps
  import opened NotifierKeys

  const NOTIFY_MAX_SEEN_AGE_MS := 24 * 60 * 60 * 1000

  datatype Mode = Persistent | Once

  datatype Subscription = Subscription(target: Target, mode: Mode, addedAtMs: int) {
    function Key(): Key { TargetKey(target) }
  }

  type Notified = seq<(string, int)>

  datatype State = State(subscribers: seq<Subscription>, notified: Notified)

  datatype Request = Request(requestId: string, ts: Option<real>)

  // ----- reading the file back -----

  function ReadSubscribers(subscribers: seq<Subscription>): seq<Subscription> {
    if subscribers == [] then []
    else
      var last := subscribers[|subscribers|-1];
      ReadSubscribers(subscribers[..|subscribers|-1])
      + (match Reread(last.target)
         case None => []
         case Some(target) => [last.(target := target)])
  }

  function ReadNotified(notified: Notified): Notified {
    if notified == [] then []
    else
      var (requestId, ts) := notified[|notified|-1];
      var front := ReadNotified(notified[..|notified|-1]);
      if Trim(requestId) == "" || ts <= 0 then front else Put(front, Trim(requestId), ts)
  }

  /** `readNotifyState` of what `writeNotifyState` wrote. */
  function ReadState(file: State): State {
    State(ReadSubscribers(file.subscribers), ReadNotified(file.notified))
  }

  // ----- subscribing -----

  function FindKey(subscribers: seq<Subscription>, key: Key): (i: int)
    ensures -1 <= i < |subscribers|
    ensures i >= 0 ==> subscribers[i].Key() == key
    ensures i < 0 ==> forall j :: 0 <= j < |subscribers| ==> subscribers[j].Key() != key
    ensures i >= 0 ==> forall j :: 0 <= j < i ==> subscribers[j].Key() != key
  {
    if subscribers == [] then -1
    else
      var i := FindKey(subscribers[..|subscribers|-1], key);
      if i >= 0 then i
      else if subscribers[|subscribers|-1].Key() == key then |subscribers| - 1
      else -1
  }

  /** `upsertNotifySubscriber`; an unchanged list means it returned false. */
  function Upserted(subscribers: seq<Subscription>, target: Target, mode: Mode, now: int): seq<Subscription> {
    var index := FindKey(subscribers, TargetKey(target));
    if index < 0 then subscribers + [Subscription(target, mode, now)]
    else if subscribers[index].mode == mode then subscribers
    else subscribers[index := Subscription(target, mode, now)]
  }

  function Unsubscribed(subscribers: seq<Subscription>, key: Key): seq<Subscription> {
    var index := FindKey(subscribers, key);
    if index < 0 then subscribers else subscribers[..index] + subscribers[index+1..]
  }

  // ----- polling -----

  function RequestTimestampMs(request: Request): Option<int> {
    if request.ts.None? then None
    else
      var ts := Trunc(request.ts.value);
      if ts > 0 then Some(ts) else None
  }

  predicate ShouldNotify(s: Subscription, request: Request) {
    s.mode == Persistent ||
    (RequestTimestampMs(request).Some? && RequestTimestampMs(request).value >= s.addedAtMs)
  }

  predicate IsPending(pending: seq<Request>, requestId: string) {
    exists i :: 0 <= i < |pending| && pending[i].requestId == requestId
  }

  predicate StillSeen(pending: seq<Request>, now: int, requestId: string, ts: int) {
    IsPending(pending, requestId) && now - ts <= NOTIFY_MAX_SEEN_AGE_MS
  }

  function SweptNotified(notified: Notified, pending: seq<Request>, now: int): Notified {
    if notified == [] then []
    else
      var (requestId, ts) := notified[|notified|-1];
      SweptNotified(notified[..|notified|-1], pending, now)
      + (if StillSeen(pending, now, requestId, ts) then [(requestId, ts)] else [])
  }

  /** Whether a message to subscriber j about request i goes through. */
  type Channel = (nat, nat) -> bool

  predicate Sent(subscribers: seq<Subscription>, request: Request, i: nat, channel: Channel, j: nat)
    requires j < |subscribers|
  {
    ShouldNotify(subscribers[j], request) && channel(i, j)
  }

  predicate Delivered(subscribers: seq<Subscription>, request: Request, i: nat, channel: Channel) {
    exists j :: 0 <= j < |subscribers| && Sent(subscribers, request, i, channel, j)
  }

  function OnceKeys(subscribers: seq<Subscription>, request: Request, i: nat, channel: Channel): set<Key> {
    set j | 0 <= j < |subscribers| && Sent(subscribers, request, i, channel, j) && subscribers[j].mode == Once
      :: subscribers[j].Key()
  }

  /** `state.notifiedRequestIds[id]` is set and not zero. */
  predicate Seen(notified: Notified, requestId: string) {
    var ts: Option<int> := Get(notified, requestId);
    ts.Some? && ts.value != 0
  }

  datatype Progress = Progress(notified: Notified, onceDelivered: set<Key>, anyDelivered: bool)

  /** The loop over the pending requests, after the first n of them. */
  function Notify(start: Notified, subscribers: seq<Subscription>, pending: seq<Request>, n: nat, now: int, channel: Channel): Progress
    requires n <= |pending|
  {
    if n == 0 then Progress(start, {}, false)
    else
      var before := Notify(start, subscribers, pending, n - 1, now, channel);
      var request := pending[n - 1];
      if Seen(before.notified, request.requestId) then before
      else Progress(
        if Delivered(subscribers, request, n - 1, channel) then Put(before.notified, request.requestId, now) else before.notified,
        before.onceDelivered + OnceKeys(subscribers, request, n - 1, channel),
        before.anyDelivered || Delivered(subscribers, request, n - 1, channel))
  }

  function Without(subscribers: seq<Subscription>, keys: set<Key>): seq<Subscription> {
    if subscribers == [] then []
    else
      Without(subscribers[..|subscribers|-1], keys)
      + (if subscribers[|subscribers|-1].Key() in keys then [] else [subscribers[|subscribers|-1]])
  }

  function PollProgress(state: State, pending: seq<Request>, now: int, channel: Channel): Progress {
    var swept := SweptNotified(state.notified, pending, now);
    if state.subscribers == [] then Progress(swept, {}, false)
    else Notify(swept, state.subscribers, pending, |pending|, now, channel)
  }

  /** What a poll makes of the state it read. */
  function Polled(state: State, pending: seq<Request>, now: int, channel: Channel): State {
    var p := PollProgress(state, pending, now, channel);
    State(Without(state.subscribers, p.onceDelivered), p.notified)
  }

  // ----- commands -----

  datatype Context = Context(
    telegram: bool, senderId: Option<string>, from: Option<string>, to: Option<string>,
    account: Option<string>, thread: ThreadId)

  function OptionalTrimmed(s: Option<string>): string {
    if s.Some? then Trim(s.value) else ""
  }

  function ResolveTarget(ctx: Context): Option<Target> {
    var to :=
      if OptionalTrimmed(ctx.senderId) != "" then OptionalTrimmed(ctx.senderId)
      else if OptionalTrimmed(ctx.from) != "" then OptionalTrimmed(ctx.from)
      else OptionalTrimmed(ctx.to);
    if to == "" then None
    else Some(Target(to, if ctx.account == Some("") then None else ctx.account, ctx.thread))
  }

  datatype Action = On | Off | Arm | Status | Unknown

  function Commanded(state: State, target: Target, action: Action, now: int): State {
    match action
    case On => state.(subscribers := Upserted(state.subscribers, target, Persistent, now))
    case Off => state.(subscribers := Unsubscribed(state.subscribers, TargetKey(target)))
    case Arm => state.(subscribers := Upserted(state.subscribers, target, Once, now))
    case Status => state
    case Unknown => state
  }

  datatype Event =
    | Poll(pending: seq<Request>, now: int, channel: Channel)
    | Command(ctx: Context, action: Action, now: int)

  function Next(state: State, e: Event): State {
    match e
    case Poll(pending, now, channel) => Polled(state, pending, now, channel)
    case Command(ctx, action, now) =>
      var target := ResolveTarget(ctx);
      if !ctx.telegram || target.None? then state else Commanded(state, target.value, action, now)
  }

  /** The `changed` flag of a poll. */
  predicate PollChanged(state: State, pending: seq<Request>, now: int, channel: Channel) {
    var p := PollProgress(state, pending, now, channel);
    || SweptNotified(state.notified, pending, now) != state.notified
    || p.anyDelivered
    || Without(state.subscribers, p.onceDelivered) != state.subscribers
  }

  /** Whether the state is written back. */
  predicate Writes(state: State, e: Event) {
    match e
    case Poll(pending, now, channel) => PollChanged(state, pending, now, channel)
    case Command(_, _, _) => Next(state, e) != state
  }

  function FileAfter(file: State, e: Event): State {
    var state := ReadState(file);
    if Writes(state, e) then Next(state, e) else file
  }

  // ----- the code -----

  class Notifier {
    var file: State

    constructor ()
      ensures file == State([], [])
    {
      file := State([], []);
    }

    method UpsertNotifySubscriber(subscribers: seq<Subscription>, target: Target, mode: Mode, now: int)
      returns (next: seq<Subscription>, changed: bool)
      ensures next == Upserted(subscribers, target, mode, now)
      ensures changed <==> next != subscribers
    {
      var index := FindKey(subscribers, TargetKey(target));
      if index < 0 { return subscribers + [Subscription(target, mode, now)], true; }
      if subscribers[index].mode == mode { return subscribers, false; }
      next := subscribers[index := Subscription(target, mode, now)];
      assert next[index].mode != subscribers[index].mode;
      return next, true;
    }

    method HandleNotifyCommand(ctx: Context, action: Action, now: int)
      modifies this
      ensures file == FileAfter(old(file), Command(ctx, action, now))
    {
      hide ReadState, TargetKey, ResolveTarget, Upserted;
      if !ctx.telegram { return; }
      var target := ResolveTarget(ctx);
      if target.None? { return; }
      var state := ReadState(file);
      match action
      case On =>
        var next, changed := UpsertNotifySubscriber(state.subscribers, target.value, Persistent, now);
        if changed { file := state.(subscribers := next); }
      case Off =>
        var index := FindKey(state.subscribers, TargetKey(target.value));
        if index >= 0 {
          file := state.(subscribers := state.subscribers[..index] + state.subscribers[index+1..]);
        }
      case Arm =>
        var next, changed := UpsertNotifySubscriber(state.subscribers, target.value, Once, now);
        if changed { file := state.(subscribers := next); }
      case Status =>
      case Unknown =>
    }

    method SweepNotified(notified: Notified, pending: seq<Request>, now: int)
      returns (swept: Notified, changed: bool)
      ensures swept == SweptNotified(notified, pending, now)
      ensures changed <==> swept != notified
    {
      swept, changed := [], false;
      for n := 0 to |notified|
        invariant swept == SweptNotified(notified[..n], pending, now)
        invariant if changed then |swept| < n else swept == notified[..n]
      {
        var (requestId, ts) := notified[n];
        assert notified[..n+1][..n] == notified[..n];
        if !IsPending(pending, requestId) || now - ts > NOTIFY_MAX_SEEN_AGE_MS {
          changed := true;
        } else {
          swept := swept + [(requestId, ts)];
        }
      }
      assert notified[..|notified|] == notified;
    }

    /** The inner loop: one request to every subscriber that should hear of it. */
    method SendToSubscribers(subscribers: seq<Subscription>, request: Request, i: nat, channel: Channel)
      returns (delivered: bool, keys: set<Key>)
      ensures delivered == Delivered(subscribers, request, i, channel)
      ensures keys == OnceKeys(subscribers, request, i, channel)
    {
      delivered, keys := false, {};
      for j := 0 to |subscribers|
        invariant delivered <==> exists k :: 0 <= k < j && Sent(subscribers, request, i, channel, k)
        invariant keys == set k | 0 <= k < j && Sent(subscribers, request, i, channel, k) && subscribers[k].mode == Once
                            :: subscribers[k].Key()
      {
        assert Sent(subscribers, request, i, channel, j) == (ShouldNotify(subscribers[j], request) && channel(i, j));
        if ShouldNotify(subscribers[j], request) {
          var sent := channel(i, j);
          delivered := delivered || sent;
          if sent && subscribers[j].mode == Once {
            keys := keys + {subscribers[j].Key()};
          }
        }
      }
    }

    method FilterSubscribers(subscribers: seq<Subscription>, keys: set<Key>) returns (kept: seq<Subscription>)
      ensures kept == Without(subscribers, keys)
      ensures |kept| <= |subscribers| && (|kept| == |subscribers| ==> kept == subscribers)
    {
      kept := [];
      for n := 0 to |subscribers|
        invariant kept == Without(subscribers[..n], keys)
        invariant |kept| <= n && (|kept| == n ==> kept == subscribers[..n])
      {
        assert subscribers[..n+1][..n] == subscribers[..n];
        if subscribers[n].Key() !in keys { kept := kept + [subscribers[n]]; }
      }
      assert subscribers[..|subscribers|] == subscribers;
    }

    /** The loop over the pending requests. */
    method NotifyRequests(swept: Notified, subscribers: seq<Subscription>, pending: seq<Request>, now: int, channel: Channel)
      returns (notified: Notified, oneShotDelivered: set<Key>, changed: bool)
      ensures Progress(notified, oneShotDelivered, changed) == Notify(swept, subscribers, pending, |pending|, now, channel)
    {
      hide Seen, Delivered, OnceKeys, Put;
      notified, oneShotDelivered, changed := swept, {}, false;
      for n := 0 to |pending|
        invariant Progress(notified, oneShotDelivered, changed) == Notify(swept, subscribers, pending, n, now, channel)
      {
        var request := pending[n];
        if !Seen(notified, request.requestId) {
          var delivered, keys := SendToSubscribers(subscribers, request, n, channel);
          oneShotDelivered := oneShotDelivered + keys;
          if delivered {
            notified := Put(notified, request.requestId, now);
            changed := true;
          }
        }
      }
    }

    method NotifyPendingPairingRequests(pending: seq<Request>, now: int, channel: Channel)
      modifies this
      ensures file == FileAfter(old(file), Poll(pending, now, channel))
    {
      hide SweptNotified, Notify, ReadState;
      var state := ReadState(file);
      var notified, changed := SweepNotified(state.notified, pending, now);
      var subscribers := state.subscribers;
      WithoutNone(subscribers);
      if |subscribers| > 0 {
        var oneShotDelivered, anyDelivered;
        notified, oneShotDelivered, anyDelivered := NotifyRequests(notified, subscribers, pending, now, channel);
        changed := changed || anyDelivered;
        if oneShotDelivered != {} {
          var initialCount := |subscribers|;
          subscribers := FilterSubscribers(subscribers, oneShotDelivered);
          if |subscribers| != initialCount { changed := true; }
        }
      }
      if changed { file := State(subscribers, notified); }
    }
  }

  lemma {:induction false} WithoutNone(subscribers: seq<Subscription>)
    ensures Without(subscribers, {}) == subscribers
  {
    hide TargetKey;
    if subscribers != [] {
      WithoutNone(subscribers[..|subscribers|-1]);
    }
  }
}
