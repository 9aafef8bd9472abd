/** What a command does, told from the recipient, the account and the thread of each subscriber. */
module NotifierChats {
  import opened Results
  import opened Text
  import opened NotifierKeys
  import opened PairNotifier
  import opened NotifierRuns

  // ----- the chat of a command -----

  ghost predicate NonBlank(s: Option<string>) {
    s.Some? && Trim(s.value) != ""
  }

  /** The chat is the sender, else the origin, else the recipient of the message, trimmed; blank ones do not count. */
  lemma ResolvedSpelledOut(ctx: Context)
    ensures ResolveTarget(ctx) == None <==> !NonBlank(ctx.senderId) && !NonBlank(ctx.from) && !NonBlank(ctx.to)
    ensures ResolveTarget(ctx).Some? ==>
      var t := ResolveTarget(ctx).value;
      && t.to == Trim((if NonBlank(ctx.senderId) then ctx.senderId else if NonBlank(ctx.from) then ctx.from else ctx.to).value)
      && t.account == (if ctx.account == Some("") then None else ctx.account)
      && t.thread == ctx.thread
  {
    hide Trim;
  }

  // ----- one command -----

  /** The first subscriber of the chat. */
  ghost predicate FirstOf(subscribers: seq<Subscription>, t: Target, i: nat) {
    && i < |subscribers| && SameChat(subscribers[i].target, t)
    && forall j :: 0 <= j < i ==> !SameChat(subscribers[j].target, t)
  }

  ghost predicate NoneOf(subscribers: seq<Subscription>, t: Target) {
    forall j :: 0 <= j < |subscribers| ==> !SameChat(subscribers[j].target, t)
  }

  lemma FoundFirst(subscribers: seq<Subscription>, t: Target)
    ensures var i := FindKey(subscribers, TargetKey(t));
      if i < 0 then NoneOf(subscribers, t) else FirstOf(subscribers, t, i)
  {
    forall j | 0 <= j < |subscribers|
      ensures subscribers[j].Key() == TargetKey(t) <==> SameChat(subscribers[j].target, t)
    {
      TargetKeysAgree(subscribers[j].target, t);
    }
    hide TargetKey, SameChat;
  }

  /**
   * Subscribing appends a chat that is new, leaves one that has this mode already, and otherwise replaces its first
   * entry where it stands, with the new time.
   */
  ghost predicate SubscribesTo(before: seq<Subscription>, t: Target, mode: Mode, now: int, after: seq<Subscription>) {
    || (NoneOf(before, t) && after == before + [Subscription(t, mode, now)])
    || (exists i: nat :: FirstOf(before, t, i)
                    && after == if before[i].mode == mode then before else before[i := Subscription(t, mode, now)])
  }

  /** Unsubscribing removes the chat's first entry. */
  ghost predicate UnsubscribesFrom(before: seq<Subscription>, t: Target, after: seq<Subscription>) {
    || (NoneOf(before, t) && after == before)
    || (exists i: nat :: FirstOf(before, t, i) && after == before[..i] + before[i+1..])
  }

  lemma UpsertSpelledOut(subscribers: seq<Subscription>, t: Target, mode: Mode, now: int)
    ensures SubscribesTo(subscribers, t, mode, now, Upserted(subscribers, t, mode, now))
    ensures UnsubscribesFrom(subscribers, t, Unsubscribed(subscribers, TargetKey(t)))
  {
    FoundFirst(subscribers, t);
    hide FirstOf, NoneOf, TargetKey;
    var i := FindKey(subscribers, TargetKey(t));
    if i >= 0 { assert FirstOf(subscribers, t, i); }
  }

  /** What each command makes of the state it reads: the notified requests stay, and so does all it cannot resolve. */
  lemma CommandSpelledOut(state: State, ctx: Context, action: Action, now: int)
    ensures var after := Next(state, Command(ctx, action, now));
      && after.notified == state.notified
      && if !ctx.telegram || ResolveTarget(ctx).None? || action == Status || action == Unknown then after == state
         else if action == Off then UnsubscribesFrom(state.subscribers, ResolveTarget(ctx).value, after.subscribers)
         else SubscribesTo(state.subscribers, ResolveTarget(ctx).value, if action == On then Persistent else Once, now,
                           after.subscribers)
  {
    hide ResolveTarget, Upserted, Unsubscribed, TargetKey, SubscribesTo, UnsubscribesFrom;
    if ResolveTarget(ctx).Some? {
      UpsertSpelledOut(state.subscribers, ResolveTarget(ctx).value, Persistent, now);
      UpsertSpelledOut(state.subscribers, ResolveTarget(ctx).value, Once, now);
    }
  }

  // ----- other chats -----

  /** Another recipient, another account or another thread: another chat. */
  lemma OtherChat(a: Target, b: Target)
    ensures a.to != b.to ==> !SameChat(a, b)
    ensures a.account.Some? && b.account.Some? && a.account != b.account ==> !SameChat(a, b)
    ensures a.account.None? && b.account.Some? && b.account.value != "" ==> !SameChat(a, b) && !SameChat(b, a)
    ensures !SameThread(ThreadOf(a.thread), ThreadOf(b.thread)) ==> !SameChat(a, b)
  {
    hide SameThread, ThreadOf;
  }

  /** The subscribers of other chats, in order. */
  ghost function Others(subscribers: seq<Subscription>, t: Target): seq<Subscription> {
    if subscribers == [] then []
    else
      var last := subscribers[|subscribers|-1];
      Others(subscribers[..|subscribers|-1], t) + (if SameChat(last.target, t) then [] else [last])
  }

  lemma {:induction false} OthersConcat(a: seq<Subscription>, b: seq<Subscription>, t: Target)
    ensures Others(a + b, t) == Others(a, t) + Others(b, t)
  {
    hide SameChat;
    if b == [] {
      assert a + b == a;
      assert Others(a, t) + [] == Others(a, t);
    } else {
      OthersConcat(a, b[..|b|-1], t);
      assert (a + b)[..|a + b|-1] == a + b[..|b|-1];
    }
  }

  lemma OthersOne(s: Subscription, t: Target)
    ensures Others([s], t) == if SameChat(s.target, t) then [] else [s]
  {
    hide SameChat;
    assert [s][..0] == [];
  }

  lemma SameChatSelf(t: Target)
    ensures SameChat(t, t)
  {
    hide ThreadOf;
  }

  lemma OthersReplaced(before: seq<Subscription>, t: Target, i: nat, s: Subscription)
    requires i < |before| && SameChat(before[i].target, t) && SameChat(s.target, t)
    ensures Others(before[i := s], t) == Others(before, t) == Others(before[..i] + before[i+1..], t)
  {
    hide SameChat;
    OthersConcat(before[..i], [before[i]], t);
    OthersConcat(before[..i], [s], t);
    OthersOne(before[i], t);
    OthersOne(s, t);
    OthersConcat(before[..i] + [before[i]], before[i+1..], t);
    OthersConcat(before[..i] + [s], before[i+1..], t);
    OthersConcat(before[..i], before[i+1..], t);
    assert before == before[..i] + [before[i]] + before[i+1..];
    assert before[i := s] == before[..i] + [s] + before[i+1..];
    hide Others;
    assert Others(before[..i], t) + [] == Others(before[..i], t);
  }

  /** A command never adds, removes, reorders or changes a subscriber of another chat. */
  lemma OtherChatsUntouched(state: State, ctx: Context, action: Action, now: int)
    requires ResolveTarget(ctx).Some?
    ensures var t := ResolveTarget(ctx).value;
      Others(Next(state, Command(ctx, action, now)).subscribers, t) == Others(state.subscribers, t)
  {
    CommandSpelledOut(state, ctx, action, now);
    hide ResolveTarget, Next, SameChat, Others;
    var t, before := ResolveTarget(ctx).value, state.subscribers;
    var after := Next(state, Command(ctx, action, now)).subscribers;
    var added := Subscription(t, if action == On then Persistent else Once, now);
    SameChatSelf(t);
    OthersConcat(before, [added], t);
    OthersOne(added, t);
    assert Others(before, t) + [] == Others(before, t);
    if i: nat :| FirstOf(before, t, i) {
      OthersReplaced(before, t, i, added);
    }
  }

  // ----- what is there afterwards -----

  ghost predicate SubscribedAs(subscribers: seq<Subscription>, t: Target, mode: Mode) {
    exists i :: 0 <= i < |subscribers| && SameChat(subscribers[i].target, t) && subscribers[i].mode == mode
  }

  lemma AfterSubscribing(before: seq<Subscription>, t: Target, mode: Mode, now: int, after: seq<Subscription>)
    requires SubscribesTo(before, t, mode, now, after)
    ensures SubscribedAs(after, t, mode)
  {
    SameChatSelf(t);
    hide SameChat;
    if NoneOf(before, t) && after == before + [Subscription(t, mode, now)] {
      assert after[|before|].target == t;
    } else {
      var i: nat :| FirstOf(before, t, i) && after == if before[i].mode == mode then before else before[i := Subscription(t, mode, now)];
      assert SameChat(after[i].target, t) && after[i].mode == mode;
    }
  }

  lemma AfterUnsubscribing(before: seq<Subscription>, t: Target, after: seq<Subscription>)
    requires UniqueKeys(before) && UnsubscribesFrom(before, t, after)
    ensures NoneOf(after, t)
  {
    hide SameChat, TargetKey;
    if !NoneOf(before, t) {
      var i: nat :| FirstOf(before, t, i) && after == before[..i] + before[i+1..];
      TargetKeysAgree(before[i].target, t);
      forall j | 0 <= j < |after| ensures !SameChat(after[j].target, t) {
        var k := if j < i then j else j + 1;
        TargetKeysAgree(before[k].target, t);
        assert after[j] == before[k];
        assert before[k].Key() != before[i].Key();
      }
    }
  }

  /** A chat with a trimmed account id reads back as itself. */
  lemma RereadSameChat(a: Target, t: Target)
    requires SameChat(a, t) && SettledTarget(t)
    ensures Reread(a).Some? && SameChat(Reread(a).value, t)
  {
    TargetKeysAgree(a, t);
    hide SameChat, Reread, ThreadKey, TargetKey;
    assert SettledTarget(a) by { SettledLike(a, t); }
    RereadSettled(a);
    TargetKeysAgree(Reread(a).value, t);
  }

  lemma SettledLike(a: Target, t: Target)
    requires TargetKey(a) == TargetKey(t) && SettledTarget(t)
    ensures SettledTarget(a)
  {
    hide ThreadKey, Trimmed;
  }

  lemma {:induction false} ReadMember(subscribers: seq<Subscription>, i: nat, t: Target)
    requires i < |subscribers| && Reread(subscribers[i].target) == Some(t)
    ensures subscribers[i].(target := t) in ReadSubscribers(subscribers)
  {
    hide Reread;
    if i < |subscribers| - 1 { ReadMember(subscribers[..|subscribers|-1], i, t); }
  }

  lemma ReadSubscribedAs(subscribers: seq<Subscription>, t: Target, mode: Mode)
    requires SubscribedAs(subscribers, t, mode) && SettledTarget(t)
    ensures SubscribedAs(ReadSubscribers(subscribers), t, mode)
  {
    hide SameChat, Reread, SettledTarget, ReadSubscribers;
    var i :| 0 <= i < |subscribers| && SameChat(subscribers[i].target, t) && subscribers[i].mode == mode;
    RereadSameChat(subscribers[i].target, t);
    var s := subscribers[i].(target := Reread(subscribers[i].target).value);
    ReadMember(subscribers, i, s.target);
    var r := ReadSubscribers(subscribers);
    var k :| 0 <= k < |r| && r[k] == s;
  }

  /**
   * Whatever the file held: after `on` or `once` from a chat with a trimmed account id, the next reader finds a
   * subscriber with exactly this recipient, account and thread, in this mode.
   */
  lemma CommandSubscribes(file: State, ctx: Context, action: Action, now: int)
    requires ctx.telegram && ResolveTarget(ctx).Some? && Trimmed(AccountPart(ctx.account))
    requires action == On || action == Arm
    ensures SubscribedAs(ReadState(FileAfter(file, Command(ctx, action, now))).subscribers, ResolveTarget(ctx).value,
                         if action == On then Persistent else Once)
  {
    var e, t, mode := Command(ctx, action, now), ResolveTarget(ctx).value, if action == On then Persistent else Once;
    ResolvedTarget(ctx);
    CommandSpelledOut(ReadState(file), ctx, action, now);
    hide ResolveTarget, Next, SettledTarget, SubscribesTo, SubscribedAs, ReadSubscribers, Trimmed, AccountPart;
    var next := Next(ReadState(file), e);
    AfterSubscribing(ReadState(file).subscribers, t, mode, now, next.subscribers);
    ReadSubscribedAs(next.subscribers, t, mode);
  }

  /**
   * In every run, `off` from a chat with a trimmed account id leaves no subscriber with this recipient, account and
   * thread, and all those of other chats.
   */
  lemma OffUnsubscribes(events: seq<Event>, ctx: Context, now: int)
    requires AllOk(events) && ctx.telegram && ResolveTarget(ctx).Some? && Trimmed(AccountPart(ctx.account))
    ensures var t := ResolveTarget(ctx).value;
      var before := ReadState(Run(events)).subscribers;
      var after := ReadState(Run(events + [Command(ctx, Off, now)])).subscribers;
      && NoneOf(after, t)
      && after == Others(before, t)
  {
    var e, t, file := Command(ctx, Off, now), ResolveTarget(ctx).value, Run(events);
    RunOk(events);
    assert (events + [e])[..|events|] == events && Run(events + [e]) == FileAfter(file, e);
    OffRuns(file, ctx, now);
    UpsertSpelledOut(ReadState(file).subscribers, t, Once, now);
    hide ResolveTarget, Run, FileAfter, ReadState, SettledTarget, SameChat, NoneOf, UnsubscribesFrom, Unsubscribed,
         NotifiedOk, EventOk, TargetKey, UniqueKeys, Others;
    var before := ReadState(file).subscribers;
    var after := Unsubscribed(before, TargetKey(t));
    AfterUnsubscribing(before, t, after);
    OthersOfNone(after, t);
    OthersKept(before, t, after);
  }

  lemma {:induction false} OthersOfNone(subscribers: seq<Subscription>, t: Target)
    requires NoneOf(subscribers, t)
    ensures Others(subscribers, t) == subscribers
  {
    hide SameChat;
    if subscribers != [] {
      OthersOfNone(subscribers[..|subscribers|-1], t);
    }
  }

  lemma OthersKept(before: seq<Subscription>, t: Target, after: seq<Subscription>)
    requires UnsubscribesFrom(before, t, after)
    ensures Others(after, t) == Others(before, t)
  {
    hide SameChat, Others;
    if i: nat :| FirstOf(before, t, i) && after == before[..i] + before[i+1..] {
      OthersReplaced(before, t, i, before[i]);
    }
  }

  // ----- reading back -----

  /**
   * Reading keeps each subscriber with a non-blank recipient: recipient, account and a text thread trimmed, blank
   * accounts and threads dropped, a number truncated.
   */
  lemma {:induction false} ReadSpelledOut(subscribers: seq<Subscription>, s: Subscription)
    ensures s in ReadSubscribers(subscribers) <==> exists f :: f in subscribers && ReadsAs(f, s)
  {
    hide Reread, ReadsAs;
    if subscribers != [] {
      var front, last := subscribers[..|subscribers|-1], subscribers[|subscribers|-1];
      assert subscribers == front + [last];
      ReadSpelledOut(front, s);
      RereadIff(last, s);
    }
  }

  ghost predicate ReadsAs(f: Subscription, s: Subscription) {
    && s.mode == f.mode && s.addedAtMs == f.addedAtMs
    && Trim(f.target.to) != "" && s.target.to == Trim(f.target.to)
    && s.target.account == (
      match f.target.account
      case None => None
      case Some(a) => if Trim(a) == "" then None else Some(Trim(a)))
    && match f.target.thread
       case NoThread => s.target.thread == NoThread
       case Num(value) => s.target.thread.Num? && s.target.thread.value == Trunc(value) as real
       case Str(text) => s.target.thread == if Trim(text) == "" then NoThread else Str(Trim(text))
  }

  lemma RereadIff(f: Subscription, s: Subscription)
    ensures ReadsAs(f, s) <==> Reread(f.target).Some? && s == f.(target := Reread(f.target).value)
  {
    hide Trim, Trunc;
  }
}
