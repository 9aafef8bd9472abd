/**
 * `createAsyncLock` and `withToggleStoreLock`: a promise chain as a mutex, over
 * interleaved steps. Promise 0 is the resolved one the lock starts with; the
 * task called as number i makes promise i + 1 and resolves it in its `finally`.
 */
module ToggleLock {
  import opened Results
  import opened ToggleStore

  datatype Phase =
    | Waiting
    | Entered
    | HasRead(local: Store)
    | Settled(committed: bool)
    | Released(committed: bool)

  datatype Task = Task(toggle: Toggle, previous: nat, phase: Phase)

  datatype State = State(tasks: seq<Task>, lock: nat, resolved: set<nat>, disk: Store)

  /** One scheduling step. `Fail` is a throw inside the task, before its write is committed. */
  datatype Event =
    | Call(toggle: Toggle)
    | Enter(i: nat)
    | Read(i: nat)
    | Write(i: nat)
    | Fail(i: nat)
    | Release(i: nat)

  function Init(disk: Store): State {
    State([], 0, {0}, disk)
  }

  function SetPhase(s: State, i: nat, phase: Phase): State
    requires i < |s.tasks|
  {
    s.(tasks := s.tasks[i := s.tasks[i].(phase := phase)])
  }

  /** The state after an event, if the event can happen. */
  function Step(s: State, e: Event): Option<State> {
    match e
    case Call(toggle) =>
      // const previous = lock; lock = new Promise(...)
      Some(s.(tasks := s.tasks + [Task(toggle, s.lock, Waiting)], lock := |s.tasks| + 1))
    case Enter(i) =>
      if i < |s.tasks| && s.tasks[i].phase == Waiting && s.tasks[i].previous in s.resolved
      then Some(SetPhase(s, i, Entered)) else None
    case Read(i) =>
      if i < |s.tasks| && s.tasks[i].phase == Entered
      then Some(SetPhase(s, i, HasRead(Normalized(s.disk)))) else None
    case Write(i) =>
      if i < |s.tasks| && s.tasks[i].phase.HasRead?
      then Some(SetPhase(s, i, Settled(true)).(disk := Changed(s.tasks[i].phase.local, s.tasks[i].toggle))) else None
    case Fail(i) =>
      if i < |s.tasks| && (s.tasks[i].phase == Entered || s.tasks[i].phase.HasRead?)
      then Some(SetPhase(s, i, Settled(false))) else None
    case Release(i) =>
      if i < |s.tasks| && s.tasks[i].phase.Settled?
      then Some(SetPhase(s, i, Released(s.tasks[i].phase.committed)).(resolved := s.resolved + {i + 1})) else None
  }

  function Run(s: State, events: seq<Event>): Option<State> {
    if events == [] then Some(s)
    else
      var before := Run(s, events[..|events|-1]);
      if before.None? then None else Step(before.value, events[|events|-1])
  }

  predicate IsCommitted(t: Task) {
    (t.phase.Settled? || t.phase.Released?) && t.phase.committed
  }

  /** The toggles whose write went through, in the order the calls arrived. */
  function Committed(tasks: seq<Task>): seq<Toggle> {
    if tasks == [] then []
    else Committed(tasks[..|tasks|-1]) + (if IsCommitted(tasks[|tasks|-1]) then [tasks[|tasks|-1].toggle] else [])
  }

  predicate InCriticalSection(t: Task) {
    t.phase.Entered? || t.phase.HasRead? || t.phase.Settled?
  }

  // ----- what every step keeps -----

  ghost predicate Chained(s: State) {
    && s.lock == |s.tasks|
    && (forall i :: 0 <= i < |s.tasks| ==> s.tasks[i].previous == i)
    && (forall p :: p in s.resolved <==> p == 0 || (1 <= p <= |s.tasks| && s.tasks[p-1].phase.Released?))
  }

  /** A task gets in only after every earlier one was released. */
  ghost predicate InOrder(s: State) {
    forall i, j :: 0 <= i < j < |s.tasks| && !s.tasks[j].phase.Waiting? ==> s.tasks[i].phase.Released?
  }

  ghost predicate Inv(s: State, disk: Store) {
    && Chained(s)
    && InOrder(s)
    && (forall i :: 0 <= i < |s.tasks| && s.tasks[i].phase.HasRead? ==> s.tasks[i].phase.local == Normalized(s.disk))
    && s.disk == ApplyAll(disk, Committed(s.tasks))
  }

  lemma {:induction false} CommittedPrefix(tasks: seq<Task>, k: nat)
    requires k <= |tasks| && forall i :: k <= i < |tasks| ==> !IsCommitted(tasks[i])
    ensures Committed(tasks) == Committed(tasks[..k])
  {
    if k < |tasks| {
      CommittedPrefix(tasks[..|tasks|-1], k);
      assert tasks[..|tasks|-1][..k] == tasks[..k];
    } else {
      assert tasks[..k] == tasks;
    }
  }

  /** Changing the phase of the task in the critical section changes what is committed by at most that task. */
  lemma CommittedUpdate(s: State, i: nat, phase: Phase)
    requires InOrder(s) && i < |s.tasks| && InCriticalSection(s.tasks[i])
    ensures Committed(SetPhase(s, i, phase).tasks)
         == Committed(s.tasks[..i]) + (if IsCommitted(s.tasks[i].(phase := phase)) then [s.tasks[i].toggle] else [])
    ensures Committed(s.tasks)
         == Committed(s.tasks[..i]) + (if IsCommitted(s.tasks[i]) then [s.tasks[i].toggle] else [])
    ensures forall j :: i < j < |s.tasks| ==> s.tasks[j].phase.Waiting?
  {
    forall j | i < j < |s.tasks| ensures s.tasks[j].phase.Waiting? {
      assert !s.tasks[i].phase.Released?;
    }
    var after := SetPhase(s, i, phase).tasks;
    CommittedPrefix(after, i + 1);
    CommittedPrefix(s.tasks, i + 1);
    assert after[..i+1][..i] == s.tasks[..i] && s.tasks[..i+1][..i] == s.tasks[..i];
  }

  lemma StepKeeps(s: State, e: Event, disk: Store)
    requires Inv(s, disk) && Step(s, e).Some?
    ensures Inv(Step(s, e).value, disk)
  {
    hide Inv, Step;
    match e {
      case Call(toggle) => CallKeeps(s, toggle, disk);
      case Enter(i) => EnterKeeps(s, i, disk);
      case Read(i) => ReadKeeps(s, i, disk);
      case Write(i) => WriteKeeps(s, i, disk);
      case Fail(i) => FailKeeps(s, i, disk);
      case Release(i) => ReleaseKeeps(s, i, disk);
    }
  }

  lemma CallKeeps(s: State, toggle: Toggle, disk: Store)
    requires Inv(s, disk)
    ensures Inv(Step(s, Call(toggle)).value, disk)
  {
    var t := Step(s, Call(toggle)).value;
    assert t.tasks[..|s.tasks|] == s.tasks;
    assert Committed(t.tasks) == Committed(s.tasks);
  }

  lemma ReadKeeps(s: State, i: nat, disk: Store)
    requires Inv(s, disk) && Step(s, Read(i)).Some?
    ensures Inv(Step(s, Read(i)).value, disk)
  {
    hide Normalized, ApplyAll, Committed;
    CommittedUpdate(s, i, Step(s, Read(i)).value.tasks[i].phase);
  }

  lemma FailKeeps(s: State, i: nat, disk: Store)
    requires Inv(s, disk) && Step(s, Fail(i)).Some?
    ensures Inv(Step(s, Fail(i)).value, disk)
  {
    hide Normalized, ApplyAll, Committed;
    CommittedUpdate(s, i, Step(s, Fail(i)).value.tasks[i].phase);
  }

  lemma ReleaseKeeps(s: State, i: nat, disk: Store)
    requires Inv(s, disk) && Step(s, Release(i)).Some?
    ensures Inv(Step(s, Release(i)).value, disk)
  {
    hide Normalized, ApplyAll, Committed;
    CommittedUpdate(s, i, Step(s, Release(i)).value.tasks[i].phase);
  }

  lemma EnterKeeps(s: State, i: nat, disk: Store)
    requires Inv(s, disk) && Step(s, Enter(i)).Some?
    ensures Inv(Step(s, Enter(i)).value, disk)
  {
    hide ApplyAll, Normalized, Committed;
    var t := Step(s, Enter(i)).value;
    assert i == 0 || s.tasks[i-1].phase.Released?;
    forall j | i < j < |s.tasks| ensures s.tasks[j].phase.Waiting? {
      assert !s.tasks[i].phase.Released?;
    }
    CommittedPrefix(s.tasks, i);
    CommittedPrefix(t.tasks, i);
    assert t.tasks[..i] == s.tasks[..i];
  }

  lemma WriteKeeps(s: State, i: nat, disk: Store)
    requires Inv(s, disk) && Step(s, Write(i)).Some?
    ensures Inv(Step(s, Write(i)).value, disk)
  {
    hide Normalized, Committed;
    var t := Step(s, Write(i)).value;
    CommittedUpdate(s, i, Settled(true));
    var before := Committed(s.tasks);
    assert Committed(t.tasks) == before + [s.tasks[i].toggle];
    assert (before + [s.tasks[i].toggle])[..|before|] == before;
    forall j | 0 <= j < |t.tasks| ensures !t.tasks[j].phase.HasRead? {
      assert j < i ==> s.tasks[j].phase.Released?;
    }
  }

  lemma {:induction false} RunKeeps(disk: Store, events: seq<Event>)
    requires Run(Init(disk), events).Some?
    ensures Inv(Run(Init(disk), events).value, disk)
  {
    if events != [] {
      RunKeeps(disk, events[..|events|-1]);
      StepKeeps(Run(Init(disk), events[..|events|-1]).value, events[|events|-1], disk);
    }
  }

  // ----- the theorems, over every run -----

  /** At most one task is between entering and its release. */
  lemma MutualExclusion(disk: Store, events: seq<Event>, i: nat, j: nat)
    requires Run(Init(disk), events).Some?
    requires var s := Run(Init(disk), events).value;
      i < |s.tasks| && j < |s.tasks| && InCriticalSection(s.tasks[i]) && InCriticalSection(s.tasks[j])
    ensures i == j
  {
    RunKeeps(disk, events);
  }

  /** Tasks run in the order of their calls. */
  lemma FirstComeFirstServed(disk: Store, events: seq<Event>, i: nat, j: nat)
    requires Run(Init(disk), events).Some?
    requires var s := Run(Init(disk), events).value; i < j < |s.tasks| && !s.tasks[j].phase.Waiting?
    ensures Run(Init(disk), events).value.tasks[i].phase.Released?
  {
    RunKeeps(disk, events);
  }

  /** At every moment the file holds the committed toggles of a prefix of the calls, in call order. */
  lemma FileIsCommittedPrefix(disk: Store, events: seq<Event>) returns (k: nat)
    requires Run(Init(disk), events).Some?
    ensures var s := Run(Init(disk), events).value;
      && k <= |s.tasks|
      && s.disk == ApplyAll(disk, Committed(s.tasks[..k]))
      && (forall i :: 0 <= i < k - 1 ==> s.tasks[i].phase.Released?)
      && (forall i :: k <= i < |s.tasks| ==> !IsCommitted(s.tasks[i]))
  {
    RunKeeps(disk, events);
    var s := Run(Init(disk), events).value;
    k := FirstUnreleased(s.tasks);
    if k < |s.tasks| && IsCommitted(s.tasks[k]) {
      k := k + 1;
    }
    CommittedPrefix(s.tasks, k);
  }

  function FirstUnreleased(tasks: seq<Task>): (k: nat)
    ensures k <= |tasks|
    ensures forall i :: 0 <= i < k ==> tasks[i].phase.Released?
    ensures k < |tasks| ==> !tasks[k].phase.Released?
  {
    if tasks == [] || !tasks[0].phase.Released? then 0 else 1 + FirstUnreleased(tasks[1..])
  }

  function Toggles(tasks: seq<Task>): seq<Toggle> {
    if tasks == [] then [] else Toggles(tasks[..|tasks|-1]) + [tasks[|tasks|-1].toggle]
  }

  /** No lost update: when all calls have returned and none threw, the file is the fold of all of them. */
  lemma NoLostUpdate(disk: Store, events: seq<Event>)
    requires Run(Init(disk), events).Some?
    requires forall t :: t in Run(Init(disk), events).value.tasks ==> t.phase == Released(true)
    ensures Run(Init(disk), events).value.disk == ApplyAll(disk, Toggles(Run(Init(disk), events).value.tasks))
  {
    RunKeeps(disk, events);
    AllCommitted(Run(Init(disk), events).value.tasks);
  }

  lemma {:induction false} AllCommitted(tasks: seq<Task>)
    requires forall t :: t in tasks ==> IsCommitted(t)
    ensures Committed(tasks) == Toggles(tasks)
  {
    if tasks != [] {
      assert tasks[|tasks|-1] in tasks;
      AllCommitted(tasks[..|tasks|-1]);
    }
  }

  /** The next step of a task that is not waiting for another one. */
  function NextEvent(t: Task, i: nat): Event {
    match t.phase
    case Waiting => Enter(i)
    case Entered => Read(i)
    case HasRead(_) => Write(i)
    case Settled(_) => Release(i)
    case Released(_) => Release(i)
  }

  function WorkOf(t: Task): nat {
    match t.phase
    case Waiting => 4
    case Entered => 3
    case HasRead(_) => 2
    case Settled(_) => 1
    case Released(_) => 0
  }

  function Work(tasks: seq<Task>): nat {
    if tasks == [] then 0 else Work(tasks[..|tasks|-1]) + WorkOf(tasks[|tasks|-1])
  }

  /** No deadlock: the first call that has not returned can always go on, whoever threw before it. */
  lemma AlwaysProgress(disk: Store, events: seq<Event>)
    requires Run(Init(disk), events).Some?
    requires var s := Run(Init(disk), events).value; FirstUnreleased(s.tasks) < |s.tasks|
    ensures var s := Run(Init(disk), events).value;
      var i := FirstUnreleased(s.tasks);
      Step(s, NextEvent(s.tasks[i], i)).Some?
  {
    RunKeeps(disk, events);
  }

  lemma {:induction false} WorkUpdate(tasks: seq<Task>, i: nat, t: Task)
    requires i < |tasks|
    ensures Work(tasks[i := t]) == Work(tasks) - WorkOf(tasks[i]) + WorkOf(t)
  {
    var last := |tasks| - 1;
    if i < last {
      WorkUpdate(tasks[..last], i, t);
      assert tasks[i := t][..last] == tasks[..last][i := t];
    } else {
      assert tasks[i := t][..last] == tasks[..last];
    }
  }

  /** Every step but a new call uses up work, so with finitely many calls every call returns. */
  lemma StepsUseUpWork(s: State, e: Event)
    requires Step(s, e).Some? && !e.Call?
    ensures Work(Step(s, e).value.tasks) < Work(s.tasks)
  {
    WorkUpdate(s.tasks, e.i, Step(s, e).value.tasks[e.i]);
  }

  // ----- one lock per file -----

  /** `toggleStoreLocks`, with the file each lock guards; a path without a lock gets one on its first call. */
  type Locks = map<string, State>

  datatype PathEvent = PathEvent(path: string, event: Event)

  function StepAll(disks: string -> Store, locks: Locks, e: PathEvent): Option<Locks> {
    var s := if e.path in locks then locks[e.path] else Init(disks(e.path));
    match Step(s, e.event)
    case None => None
    case Some(t) => Some(locks[e.path := t])
  }

  function RunAll(disks: string -> Store, events: seq<PathEvent>): Option<Locks> {
    if events == [] then Some(map[])
    else
      var before := RunAll(disks, events[..|events|-1]);
      if before.None? then None else StepAll(disks, before.value, events[|events|-1])
  }

  function EventsOf(path: string, events: seq<PathEvent>): seq<Event> {
    if events == [] then []
    else EventsOf(path, events[..|events|-1])
         + (if events[|events|-1].path == path then [events[|events|-1].event] else [])
  }

  /** Locks of different files do not interact: each sees exactly its own events. */
  lemma {:induction false} LocksIndependent(disks: string -> Store, events: seq<PathEvent>, path: string)
    requires RunAll(disks, events).Some?
    ensures Run(Init(disks(path)), EventsOf(path, events))
         == Some(if path in RunAll(disks, events).value then RunAll(disks, events).value[path] else Init(disks(path)))
  {
    if events != [] {
      var front, last := events[..|events|-1], events[|events|-1];
      LocksIndependent(disks, front, path);
      if last.path == path {
        var own := EventsOf(path, front);
        assert (own + [last.event])[..|own|] == own;
      } else {
        assert EventsOf(path, front) + [] == EventsOf(path, front);
      }
    }
  }
}
