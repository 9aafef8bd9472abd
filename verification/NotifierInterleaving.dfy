/**
 * The pairing notifier without a lock: polls and commands read the state file, wait, and write it back later,
 * in any interleaving.
 */
module NotifierInterleaving {
  import opened Results
  import opened NotifierKeys
  import opened PairNotifier
  import opened NotifierRuns
  import opened NotifierPolls

  /** A poll or command that has read the file and has not finished yet. */
  datatype Opened = Opened(read: State, event: Event)

  datatype System = System(file: State, started: nat, open: map<nat, Opened>)

  /** `Begin` reads the file; `End` writes what the event with that number makes of what it read, if it writes. */
  datatype Step = Begin(event: Event) | End(id: nat)

  const INIT := System(State([], []), 0, map[])

  function Take(s: System, step: Step): Option<System> {
    match step
    case Begin(e) => Some(System(s.file, s.started + 1, s.open[s.started := Opened(ReadState(s.file), e)]))
    case End(id) =>
      if id !in s.open then None
      else
        var o := s.open[id];
        Some(System(if Writes(o.read, o.event) then Next(o.read, o.event) else s.file, s.started, s.open - {id}))
  }

  function Steps(s: System, steps: seq<Step>): Option<System> {
    if steps == [] then Some(s)
    else
      var before := Steps(s, steps[..|steps|-1]);
      if before.None? then None else Take(before.value, steps[|steps|-1])
  }

  lemma {:induction false} StepsConcat(s: System, a: seq<Step>, b: seq<Step>)
    ensures Steps(s, a + b) == if Steps(s, a).None? then None else Steps(Steps(s, a).value, b)
  {
    hide Take;
    if b == [] {
      assert a + b == a;
    } else {
      assert (a + b)[..|a + b|-1] == a + b[..|b|-1];
      StepsConcat(s, a, b[..|b|-1]);
    }
  }

  // ----- one after another -----

  /** Each event ends before the next begins. */
  function Serial(events: seq<Event>, first: nat): seq<Step> {
    if events == [] then []
    else Serial(events[..|events|-1], first) + [Begin(events[|events|-1]), End(first + |events| - 1)]
  }

  lemma EndNow(s: System, e: Event)
    requires s.started !in s.open
    ensures Take(s, Begin(e)).Some?
    ensures Take(Take(s, Begin(e)).value, End(s.started)) == Some(System(FileAfter(s.file, e), s.started + 1, s.open))
  {
    hide ReadState, Writes, Next;
    assert Take(s, Begin(e)).value.open - {s.started} == s.open;
  }

  lemma BeginEnd(s: System, e: Event)
    requires s.started !in s.open
    ensures Steps(s, [Begin(e), End(s.started)]) == Some(System(FileAfter(s.file, e), s.started + 1, s.open))
  {
    var steps, middle := [Begin(e), End(s.started)], Take(s, Begin(e)).value;
    EndNow(s, e);
    hide Take;
    assert steps[..1] == [Begin(e)] && [Begin(e)][..0] == [];
    assert Steps(s, [Begin(e)]) == Some(middle);
  }

  /** Without overlap the notifier runs as if every poll and command were atomic. */
  lemma {:induction false} SerialIsAtomic(events: seq<Event>)
    ensures Steps(INIT, Serial(events, 0)) == Some(System(Run(events), |events|, map[]))
  {
    hide FileAfter;
    if events != [] {
      var front, e := events[..|events|-1], events[|events|-1];
      SerialIsAtomic(front);
      BeginEnd(System(Run(front), |front|, map[]), e);
      StepsConcat(INIT, Serial(front, 0), [Begin(e), End(|front|)]);
    }
  }

  // ----- what every interleaving keeps -----

  ghost predicate SystemOk(s: System) {
    && StateOk(s.file)
    && forall id :: id in s.open ==> id < s.started && StateOk(s.open[id].read) && EventOk(s.open[id].event)
  }

  ghost predicate StepOk(step: Step) {
    step.Begin? ==> EventOk(step.event)
  }

  lemma TakeOk(s: System, step: Step)
    requires SystemOk(s) && StepOk(step) && Take(s, step).Some?
    ensures SystemOk(Take(s, step).value)
  {
    hide StateOk, EventOk, Next, Writes, ReadState;
    match step {
      case Begin(e) => ReadStateOk(s.file);
      case End(id) => NextOk(s.open[id].read, s.open[id].event);
    }
  }

  /** In every interleaving with trimmed ids the file keeps unique subscriber keys. */
  lemma {:induction false} StepsOk(steps: seq<Step>)
    requires Steps(INIT, steps).Some? && forall step :: step in steps ==> StepOk(step)
    ensures SystemOk(Steps(INIT, steps).value)
  {
    hide StateOk, StepOk, Take;
    if steps == [] {
      assert StateOk(INIT.file) by { RunOk([]); }
    } else {
      assert steps[|steps|-1] in steps;
      StepsOk(steps[..|steps|-1]);
      TakeOk(Steps(INIT, steps[..|steps|-1]).value, steps[|steps|-1]);
    }
  }

  // ----- lost updates -----

  /** What an event has read stays with it until it ends. */
  lemma {:induction false} StaysOpen(s: System, steps: seq<Step>, id: nat)
    requires Steps(s, steps).Some? && id in s.open && id < s.started && End(id) !in steps
    ensures var t := Steps(s, steps).value;
      t.started >= s.started && id in t.open && t.open[id] == s.open[id]
  {
    hide ReadState, Writes, Next;
    if steps != [] {
      assert steps[|steps|-1] in steps;
      StaysOpen(s, steps[..|steps|-1], id);
    }
  }

  /**
   * The end of an event that writes leaves the file as the event alone would have left it: whatever was written
   * since it began is lost. The end of one that does not write changes nothing.
   */
  lemma EndOverwrites(s: System, e: Event, between: seq<Step>)
    requires End(s.started) !in between && Steps(s, [Begin(e)] + between).Some?
    ensures var t := Steps(s, [Begin(e)] + between).value;
      var end := Take(t, End(s.started));
      end.Some? && end.value.file == if Writes(ReadState(s.file), e) then FileAfter(s.file, e) else t.file
  {
    hide ReadState, Writes, Next;
    var begun := Take(s, Begin(e)).value;
    assert [Begin(e)][..0] == [] && Steps(s, [Begin(e)]) == Some(begun);
    StepsConcat(s, [Begin(e)], between);
    StaysOpen(begun, between, s.started);
  }

  /** Whether a chat is subscribed when an event ends depends on what it read, if it writes, and on the file if not. */
  lemma KeysAtEnd(s: System, e: Event, between: seq<Step>, key: Key)
    requires SystemOk(s) && EventOk(e) && End(s.started) !in between && Steps(s, [Begin(e)] + between).Some?
    ensures var t := Steps(s, [Begin(e)] + between).value;
      var end := Take(t, End(s.started));
      end.Some? && (HasKey(ReadState(end.value.file).subscribers, key) <==>
        if Writes(ReadState(s.file), e) then HasKey(Next(ReadState(s.file), e).subscribers, key)
        else HasKey(ReadState(t.file).subscribers, key))
  {
    hide ReadState, Writes, Next, StateOk, EventOk, HasKey, Take, Steps;
    EndOverwrites(s, e, between);
    KeysAfter(s.file, e, key);
  }

  /** The steps of a command that runs while something else is under way. */
  function Whole(e: Event, id: nat): seq<Step> {
    [Begin(e), End(id)]
  }

  lemma MeanwhileWhole(s: System, poll: Event, e: Event)
    requires SystemOk(s)
    ensures End(s.started) !in Whole(e, s.started + 1)
    ensures Steps(s, [Begin(poll)] + Whole(e, s.started + 1)).Some?
    ensures Steps(s, [Begin(poll)] + Whole(e, s.started + 1)).value.file == FileAfter(s.file, e)
  {
    hide ReadState, Writes, Next, StateOk, EventOk, FileAfter;
    var begun := Take(s, Begin(poll)).value;
    assert [Begin(poll)][..0] == [] && Steps(s, [Begin(poll)]) == Some(begun);
    assert begun.started !in begun.open;
    BeginEnd(begun, e);
    StepsConcat(s, [Begin(poll)], Whole(e, s.started + 1));
  }

  /**
   * An `off` given while a poll is under way is undone exactly when the chat was subscribed as the poll read it, gets
   * no one-shot message from it, and the poll forgets a record or reaches somebody.
   */
  lemma OffDuringPoll(s: System, poll: Event, ctx: Context, now: int)
    requires SystemOk(s) && poll.Poll? && EventOk(poll) && ctx.telegram && ResolveTarget(ctx).Some?
    ensures var key, read := TargetKey(ResolveTarget(ctx).value), ReadState(s.file);
      var during := Steps(s, [Begin(poll)] + Whole(Command(ctx, Off, now), s.started + 1));
      && during.Some? && Take(during.value, End(s.started)).Some?
      && !HasKey(ReadState(during.value.file).subscribers, key)
      && (HasKey(ReadState(Take(during.value, End(s.started)).value.file).subscribers, key) <==>
            HasKey(read.subscribers, key) && !ServesOnce(read, poll, key) && (Forgets(read, poll) || Reaches(read, poll)))
  {
    var key, off := TargetKey(ResolveTarget(ctx).value), Command(ctx, Off, now);
    MeanwhileWhole(s, poll, off);
    OffLeavesNone(s.file, ctx, now);
    hide *;
    KeysAtEnd(s, poll, Whole(off, s.started + 1), key);
    PollKeepsKey(ReadState(s.file), poll, key);
    PollWritesIff(ReadState(s.file), poll);
  }

  lemma OffLeavesNone(file: State, ctx: Context, now: int)
    requires StateOk(file) && ctx.telegram && ResolveTarget(ctx).Some?
    ensures !HasKey(ReadState(FileAfter(file, Command(ctx, Off, now))).subscribers, TargetKey(ResolveTarget(ctx).value))
  {
    hide ReadState, ResolveTarget, TargetKey, FileAfter, HasKey, SubscribersOk, NotifiedOk;
    ReadStateOk(file);
    OffRuns(file, ctx, now);
    UnsubscribedGone(ReadState(file).subscribers, TargetKey(ResolveTarget(ctx).value));
  }
}
