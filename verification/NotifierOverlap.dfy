/** Overlap that really happens: an `off` that is undone, and a one-shot subscription delivered twice. */
module NotifierOverlap {
  import opened Results
  import opened Text
  import opened NotifierKeys
  import opened PairNotifier
  import opened NotifierRuns
  import opened NotifierDelivery
  import opened NotifierArming
  import opened NotifierPolls
  import opened NotifierRepeats
  import opened NotifierInterleaving

  ghost predicate Reachable(s: System) {
    exists steps :: (forall step :: step in steps ==> StepOk(step)) && Steps(INIT, steps) == Some(s)
  }

  lemma ReachableOk(s: System)
    requires Reachable(s)
    ensures SystemOk(s)
  {
    hide SystemOk, StepOk, Steps;
    var steps :| (forall step :: step in steps ==> StepOk(step)) && Steps(INIT, steps) == Some(s);
    StepsOk(steps);
  }

  /** The system after the first command of a chat. */
  function AfterFirst(ctx: Context, mode: Mode, now: int): System
    requires ResolveTarget(ctx).Some?
  {
    System(State([Subscription(ResolveTarget(ctx).value, mode, now)], []), 1, map[])
  }

  lemma FirstArm(ctx: Context, now: int)
    requires ctx.telegram && ResolveTarget(ctx).Some?
    ensures FileAfter(State([], []), Command(ctx, Arm, now))
         == State([Subscription(ResolveTarget(ctx).value, Once, now)], [])
  {
    hide TargetKey, ResolveTarget;
    assert ReadState(State([], [])) == State([], []);
  }

  lemma WholeOk(e: Event, id: nat)
    requires EventOk(e)
    ensures forall step :: step in Whole(e, id) ==> StepOk(step)
  {
    hide EventOk;
    assert StepOk(Begin(e)) && StepOk(End(id));
    hide StepOk;
    forall step | step in Whole(e, id) ensures StepOk(step) {
      var k :| 0 <= k < 2 && Whole(e, id)[k] == step;
    }
  }

  lemma ReachedByWhole(e: Event)
    requires EventOk(e)
    ensures Reachable(System(FileAfter(State([], []), e), 1, map[]))
  {
    BeginEnd(INIT, e);
    WholeOk(e, 0);
    hide FileAfter, StepOk, Steps, EventOk;
    assert Whole(e, 0) == [Begin(e), End(0)];
    hide Whole;
  }

  lemma FirstReached(ctx: Context, mode: Mode, now: int)
    requires ctx.telegram && ResolveTarget(ctx).Some? && Trimmed(AccountPart(ctx.account))
    ensures Reachable(AfterFirst(ctx, mode, now))
  {
    var e := Command(ctx, if mode == Once then Arm else On, now);
    assert EventOk(e);
    hide ResolveTarget, Trimmed, FileAfter, EventOk, Reachable;
    if mode == Once { FirstArm(ctx, now); } else { FirstOn(ctx, now); }
    ReachedByWhole(e);
  }

  lemma FirstRead(ctx: Context, mode: Mode, now: int)
    requires ResolveTarget(ctx).Some?
    ensures Reread(ResolveTarget(ctx).value).Some?
    ensures ReadState(AfterFirst(ctx, mode, now).file)
         == State([Subscription(Reread(ResolveTarget(ctx).value).value, mode, now)], [])
  {
    hide *;
    ResolvedRereads(ctx);
    AfterFirstFile(ctx, mode, now);
    ReadOne(Subscription(ResolveTarget(ctx).value, mode, now));
  }

  lemma AfterFirstFile(ctx: Context, mode: Mode, now: int)
    requires ResolveTarget(ctx).Some?
    ensures AfterFirst(ctx, mode, now).file == State([Subscription(ResolveTarget(ctx).value, mode, now)], [])
  {
  }

  // ----- an `off` that is undone -----

  /** The chat is subscribed again once the poll, begun before the `off`, has ended. */
  ghost predicate OffUndone(s: System, poll: Event, ctx: Context, now: int)
    requires ResolveTarget(ctx).Some?
  {
    var during := Steps(s, [Begin(poll)] + Whole(Command(ctx, Off, now), s.started + 1));
    && during.Some? && Take(during.value, End(s.started)).Some?
    && HasKey(ReadState(Take(during.value, End(s.started)).value.file).subscribers, TargetKey(ResolveTarget(ctx).value))
  }

  lemma TrimmedR()
    ensures Trimmed("r")
  {
  }

  /** A poll that reaches a persistent subscriber keeps it. */
  lemma PollForKeeps(read: State, now: int, key: Key)
    requires |read.subscribers| == 1 && read.subscribers[0].mode == Persistent && read.notified == []
    ensures !ServesOnce(read, PollFor("r", now), key) && Reaches(read, PollFor("r", now))
  {
    hide TargetKey;
    var e := PollFor("r", now);
    assert Sent(read.subscribers, e.pending[0], 0, e.channel, 0);
    assert ReachesWith(read, e, 0);
  }

  lemma SubscribedOffUndone(ctx: Context, now: int)
    requires ctx.telegram && ResolveTarget(ctx).Some? && Trimmed(AccountPart(ctx.account))
    ensures var s := AfterFirst(ctx, Persistent, 1);
      Reachable(s) && EventOk(PollFor("r", 2)) && OffUndone(s, PollFor("r", 2), ctx, now)
  {
    var s, key := AfterFirst(ctx, Persistent, 1), TargetKey(ResolveTarget(ctx).value);
    TrimmedR();
    assert EventOk(PollFor("r", 2));
    hide *;
    FirstReached(ctx, Persistent, 1);
    ReachableOk(s);
    FirstRead(ctx, Persistent, 1);
    ResolvedRereads(ctx);
    StoredKeyIs(ctx);
    var r := Subscription(Reread(ResolveTarget(ctx).value).value, Persistent, 1);
    assert ReadState(s.file) == State([r], []);
    PollForKeeps(State([r], []), 2, key);
    SingleHasKey(r);
    assert PollFor("r", 2).Poll? by { PollForIsPoll("r", 2); }
    OffDuringPoll(s, PollFor("r", 2), ctx, now);
    OffUndoneIs(s, PollFor("r", 2), ctx, now);
  }

  lemma PollForIsPoll(r: string, now: int)
    ensures PollFor(r, now).Poll?
  {
  }

  lemma SingleHasKey(s: Subscription)
    ensures HasKey([s], TargetKey(s.target))
  {
    hide TargetKey;
    assert [s][0].Key() == TargetKey(s.target);
  }

  lemma OffUndoneIs(s: System, poll: Event, ctx: Context, now: int)
    requires ResolveTarget(ctx).Some?
    ensures OffUndone(s, poll, ctx, now) <==>
      (var during := Steps(s, [Begin(poll)] + Whole(Command(ctx, Off, now), s.started + 1));
       && during.Some? && Take(during.value, End(s.started)).Some?
       && HasKey(ReadState(Take(during.value, End(s.started)).value.file).subscribers, TargetKey(ResolveTarget(ctx).value)))
  {
    hide Steps, Take, ReadState, HasKey, Whole, TargetKey, ResolveTarget;
  }

  /** A file never reads with the key of an untrimmed account id. */
  lemma UntrimmedNeverRead(s: System, ctx: Context)
    requires SystemOk(s) && ResolveTarget(ctx).Some? && !Trimmed(AccountPart(ctx.account))
    ensures !HasKey(ReadState(s.file).subscribers, TargetKey(ResolveTarget(ctx).value))
  {
    assert AccountPart(ResolveTarget(ctx).value.account) == AccountPart(ctx.account);
    ReadStateOk(s.file);
    hide Trimmed, ReadState, ResolveTarget, ThreadKey;
    forall i | 0 <= i < |ReadState(s.file).subscribers|
      ensures ReadState(s.file).subscribers[i].Key() != TargetKey(ResolveTarget(ctx).value)
    {
      assert SettledTarget(ReadState(s.file).subscribers[i].target);
    }
  }

  /** Some poll in some reachable system undoes an `off` of the chat if and only if its account id is trimmed. */
  lemma OffUndoneIff(ctx: Context)
    requires ctx.telegram && ResolveTarget(ctx).Some?
    ensures (exists s: System, poll: Event, now: int :: Reachable(s) && poll.Poll? && EventOk(poll) && OffUndone(s, poll, ctx, now))
        <==> Trimmed(AccountPart(ctx.account))
  {
    hide Trimmed, Reachable, OffUndone, ResolveTarget, EventOk, AccountPart, SystemOk, HasKey, ReadState;
    if Trimmed(AccountPart(ctx.account)) {
      SubscribedOffUndone(ctx, 2);
      assert Reachable(AfterFirst(ctx, Persistent, 1)) && PollFor("r", 2).Poll?;
    } else {
      forall s: System, poll: Event, now: int | Reachable(s) && poll.Poll? && EventOk(poll) ensures !OffUndone(s, poll, ctx, now) {
        ReachableOk(s);
        UntrimmedNeverRead(s, ctx);
        OffDuringPoll(s, poll, ctx, now);
        OffUndoneIs(s, poll, ctx, now);
      }
    }
  }

  // ----- a one-shot subscription delivered twice -----

  /**
   * Two polls, the first of which serves a one-shot subscription. The second, begun before the first ends, serves it
   * too exactly when it would alone; begun afterwards it never does.
   */
  lemma OneShotTwiceIff(s: System, p1: Event, p2: Event, key: Key)
    requires SystemOk(s) && p1.Poll? && p2.Poll? && EventOk(p1)
    requires ServesOnce(ReadState(s.file), p1, key)
    ensures var overlapping, serial := Steps(s, [Begin(p1), Begin(p2)]), Steps(s, Whole(p1, s.started) + [Begin(p2)]);
      && overlapping.Some? && s.started in overlapping.value.open && s.started + 1 in overlapping.value.open
      && ServesOnce(overlapping.value.open[s.started].read, p1, key)
      && (ServesOnce(overlapping.value.open[s.started + 1].read, p2, key) <==> ServesOnce(ReadState(s.file), p2, key))
      && serial.Some? && s.started + 1 in serial.value.open
      && !ServesOnce(serial.value.open[s.started + 1].read, p2, key)
  {
    BothRead(s, p1, p2);
    hide ServesOnce, ReadState, EventOk, FileAfter, StateOk;
    assert s.started !in s.open;
    BeginEnd(s, p1);
    StepsConcat(s, Whole(p1, s.started), [Begin(p2)]);
    var ended := System(FileAfter(s.file, p1), s.started + 1, s.open);
    assert [Begin(p2)][..0] == [] && Steps(ended, [Begin(p2)]) == Take(ended, Begin(p2));
    ServedIsGone(s.file, p1, p2, key);
  }

  lemma BothRead(s: System, p1: Event, p2: Event)
    ensures var t := Steps(s, [Begin(p1), Begin(p2)]);
      && t.Some? && s.started in t.value.open && s.started + 1 in t.value.open
      && t.value.open[s.started].read == ReadState(s.file) && t.value.open[s.started + 1].read == ReadState(s.file)
  {
    hide ReadState, Steps;
    TwoSteps(s, Begin(p1), Begin(p2));
  }

  lemma TwoSteps(s: System, a: Step, b: Step)
    requires Take(s, a).Some?
    ensures Steps(s, [a, b]) == Take(Take(s, a).value, b)
  {
    hide Take;
    var steps, one := [a, b], [a];
    assert steps[..1] == one && one[..0] == [];
    assert Steps(s, one) == Take(s, a);
  }

  /** Once the first poll has written, the subscription is gone. */
  lemma ServedIsGone(file: State, p1: Event, p2: Event, key: Key)
    requires StateOk(file) && EventOk(p1) && p1.Poll? && p2.Poll? && ServesOnce(ReadState(file), p1, key)
    ensures !ServesOnce(ReadState(FileAfter(file, p1)), p2, key)
  {
    PollKeepsKey(ReadState(file), p1, key);
    KeysAfter(file, p1, key);
    ServesSubscriber(ReadState(FileAfter(file, p1)), p2, key);
    hide *;
  }

  lemma ServesSubscriber(state: State, e: Event, key: Key)
    requires !HasKey(state.subscribers, key)
    ensures !ServesOnce(state, e, key)
  {
    hide TargetKey, Sent, Seen, Notify, SweptNotified;
  }

  /** A poll that sees a request made at `now` and delivers everything. */
  function PollNow(now: nat): Event {
    Poll([Request("r", Some(now as real))], now, Always)
  }

  lemma PollNowServes(read: State, now: nat, key: Key)
    requires read.notified == [] && |read.subscribers| == 1 && read.subscribers[0].Key() == key
    requires read.subscribers[0].mode == Once && read.subscribers[0].addedAtMs <= now && now > 0
    ensures ServesOnce(read, PollNow(now), key)
  {
    hide TargetKey;
    var e := PollNow(now);
    assert Trunc(now as real) == now;
    assert Sent(read.subscribers, e.pending[0], 0, e.channel, 0);
    assert Sends(read, e, 0, 0);
  }

  /** Every chat with a trimmed account id can get its one-shot notification twice. */
  lemma OneShotCanBeTwice(ctx: Context)
    requires ctx.telegram && ResolveTarget(ctx).Some? && Trimmed(AccountPart(ctx.account))
    ensures var s, key := AfterFirst(ctx, Once, 1), TargetKey(ResolveTarget(ctx).value);
      && Reachable(s) && EventOk(PollNow(2)) && EventOk(PollNow(3))
      && ServesOnce(ReadState(s.file), PollNow(2), key) && ServesOnce(ReadState(s.file), PollNow(3), key)
  {
    TrimmedR();
    assert EventOk(PollNow(2)) && EventOk(PollNow(3));
    hide *;
    FirstReached(ctx, Once, 1);
    FirstRead(ctx, Once, 1);
    ResolvedRereads(ctx);
    StoredKeyIs(ctx);
    var r := Subscription(Reread(ResolveTarget(ctx).value).value, Once, 1);
    KeyOf(r);
    PollNowServes(State([r], []), 2, TargetKey(ResolveTarget(ctx).value));
    PollNowServes(State([r], []), 3, TargetKey(ResolveTarget(ctx).value));
  }
}
