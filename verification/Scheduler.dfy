/**
 The parallel build scheduler: one producer loop and a pool of workers, as a state machine.
 An action is one indivisible step of the producer or of a worker; every interleaving is a run.
 */
module Scheduler {

  type Task = int

  datatype Status = NotRun | Missing | Crashed | Exception | Skipped | Success | Preset

  /** Where a worker is with the task it holds. */
  datatype Phase = Got | Running | Recorded | Reported

  /** Where the producer loop is. */
  datatype Pc = Loop | Refill | Fill | AfterGet | Next | Examine(task: Task) | Drain | Done | Deadlocked

  datatype Deadlock = Unset | At(processed: nat)

  datatype Config = Config(numjobs: nat, keep: nat, verbose: bool,
                           groups: seq<seq<Task>>,
                           more: map<Task, seq<Task>>,
                           deps: map<Task, set<Task>>)

  const GAP: nat := 10

  datatype State = State(pc: Pc,
                         outstanding: seq<Task>, frozen: seq<Task>,
                         ready: seq<Task>, busy: map<Task, Phase>, out: seq<Task>,
                         count: nat, processed: nat, deadlock: Deadlock, stop: bool,
                         nextGroup: nat, errors: seq<Task>,
                         hasrun: map<Task, Status>, runAfter: map<Task, set<Task>>,
                         // history
                         started: set<Task>, dropped: set<Task>, collected: set<Task>)

  function More(c: Config, t: Task): (r: seq<Task>)
    ensures t in c.more ==> r == c.more[t]
    ensures t !in c.more ==> r == []
  {
    if t in c.more then c.more[t] else []
  }

  function Deps(c: Config, t: Task): (r: set<Task>)
    ensures forall d :: d in r <==> t in c.deps && d in c.deps[t]
  {
    if t in c.deps then c.deps[t] else {}
  }

  function StatusOf(s: State, t: Task): Status {
    if t in s.hasrun then s.hasrun[t] else NotRun
  }

  predicate Ran(s: State, t: Task) {
    StatusOf(s, t) != NotRun
  }

  function RunAfter(s: State, t: Task): set<Task> {
    if t in s.runAfter then s.runAfter[t] else {}
  }

  /** t still waits for one of the tasks it must run after. */
  ghost predicate Waits(s: State, t: Task) {
    exists d :: d in RunAfter(s, t) && !Ran(s, d)
  }

  // ---- Actions ----

  /** What examining a task can lead to; `extra` are implicit prerequisites discovered on the way. */
  datatype Outcome = AskLater(front: bool) | SkipMe | RunMe(result: Status) | Raises

  datatype Action =
    | TestStop | RefillGet | RefillEnd
    | FillEnd | FillGet | FillThaw | FillPull | FillDeadlock | GetThaw | GetPull | GetAgain
    | NextNone | NextRan | NextStop | NextExamine | Examined(extra: set<Task>, outcome: Outcome)
    | DrainGet | DrainEnd
    | Take | Check(t: Task) | Finish(t: Task, result: Status) | Report(t: Task) | Put(t: Task)

  ghost predicate Enabled(c: Config, s: State, a: Action) {
    match a
    case TestStop => s.pc == Loop
    case RefillGet => s.pc == Refill && s.count > c.numjobs * GAP && s.out != []
    case RefillEnd => s.pc == Refill && s.count <= c.numjobs * GAP
    case FillEnd => s.pc == Fill && s.outstanding != []
    case FillGet => s.pc == Fill && s.outstanding == [] && s.count > 0 && s.out != []
    case FillThaw => s.pc == Fill && s.outstanding == [] && s.count == 0 && s.frozen != [] &&
        s.deadlock != At(s.processed)
    case FillPull => s.pc == Fill && s.outstanding == [] && s.count == 0 && s.frozen == []
    case FillDeadlock => s.pc == Fill && s.outstanding == [] && s.count == 0 && s.frozen != [] &&
        s.deadlock == At(s.processed)
    case GetThaw => s.pc == AfterGet && s.frozen != []
    case GetPull => s.pc == AfterGet && s.frozen == [] && s.count == 0
    case GetAgain => s.pc == AfterGet && s.frozen == [] && s.count > 0
    case NextNone => s.pc == Next && s.outstanding == []
    case NextRan => s.pc == Next && s.outstanding != [] && Ran(s, s.outstanding[0])
    case NextStop => s.pc == Next && s.outstanding != [] && !Ran(s, s.outstanding[0]) && s.stop
    case NextExamine => s.pc == Next && s.outstanding != [] && !Ran(s, s.outstanding[0]) && !s.stop
    case Examined(extra, outcome) =>
      && s.pc.Examine? && extra <= Deps(c, s.pc.task)
      && (extra != {} ==> !Waits(s, s.pc.task))
      && OutcomeFits(c, s, Discover(s, s.pc.task, extra), s.pc.task, outcome)
    case DrainGet => s.pc == Drain && s.errors != [] && s.count > 0 && s.out != []
    case DrainEnd => s.pc == Drain && (s.errors == [] || s.count == 0)
    case Take => s.ready != [] && |s.busy| < c.numjobs
    case Check(t) => t in s.busy && s.busy[t] == Got
    case Finish(t, result) => t in s.busy && s.busy[t] == Running && IsResult(result)
    case Report(t) => t in s.busy && s.busy[t] == Recorded
    case Put(t) => t in s.busy && s.busy[t] == Reported
  }

  /** `runnable_status` answers ASK_LATER exactly when a prerequisite, old or new, has not run. */
  ghost predicate OutcomeFits(c: Config, before: State, after: State, t: Task, outcome: Outcome) {
    match outcome
    case AskLater(_) => Waits(after, t)
    case SkipMe => !Waits(after, t)
    case RunMe(result) => !Waits(after, t) && (c.numjobs == 1 ==> IsResult(result))
    case Raises => !Waits(before, t)
  }

  /** What `process` leaves in `hasrun` after running a task. */
  predicate IsResult(result: Status) {
    result == Success || result == Missing || result == Crashed || result == Exception
  }

  predicate ByWorker(a: Action) {
    a.Take? || a.Check? || a.Finish? || a.Report? || a.Put?
  }

  function Apply(c: Config, s: State, a: Action): State
    requires Enabled(c, s, a)
  {
    if ByWorker(a) then ApplyWorker(c, s, a)
    else if a.Examined? then ApplyOutcome(c, Discover(s, s.pc.task, a.extra), s.pc.task, a.outcome)
    else ApplyProducer(c, s, a)
  }

  function ApplyProducer(c: Config, s: State, a: Action): State
    requires Enabled(c, s, a) && !ByWorker(a) && !a.Examined?
  {
    match a
    case TestStop => s.(pc := if s.stop then Drain else Refill)
    case RefillGet => GetOut(c, s)
    case RefillEnd => s.(pc := Fill)
    case FillEnd => s.(pc := Next)
    case FillGet => GetOut(c, s).(pc := AfterGet)
    case FillThaw => Thaw(s.(deadlock := At(s.processed)))
    case FillPull => Pull(c, s)
    case FillDeadlock => s.(pc := Deadlocked)
    case GetThaw => Thaw(s)
    case GetPull => Pull(c, s)
    case GetAgain => s.(pc := Fill)
    case NextNone => s.(pc := if s.count > 0 then Loop else Drain)
    case NextRan => s.(outstanding := s.outstanding[1..], processed := s.processed + 1, pc := Loop)
    case NextStop => s.(outstanding := s.outstanding[1..], pc := Drain)
    case NextExamine => s.(outstanding := s.outstanding[1..], pc := Examine(s.outstanding[0]))
    case DrainGet => GetOut(c, s)
    case DrainEnd => s.(pc := Done)
  }

  function ApplyWorker(c: Config, s: State, a: Action): State
    requires Enabled(c, s, a) && ByWorker(a)
  {
    match a
    case Take => s.(ready := s.ready[1..], busy := s.busy[s.ready[0] := Got])
    case Check(t) => if s.stop then HandBack(s, t).(dropped := s.dropped + {t}) else s.(busy := s.busy[t := Running])
    case Finish(t, result) => s.(busy := s.busy[t := Recorded], hasrun := s.hasrun[t := result])
    case Report(t) => ReportError(c, s, t).(busy := s.busy[t := Reported])
    case Put(t) => HandBack(s, t)
  }

  function HandBack(s: State, t: Task): State {
    s.(busy := s.busy - {t}, out := s.out + [t])
  }

  /** `error_handler`, called for a task that did not succeed. */
  function ReportError(c: Config, s: State, t: Task): State {
    if StatusOf(s, t) == Success then s
    else s.(stop := s.stop || c.keep == 0, errors := s.errors + [t])
  }

  function AddMore(c: Config, s: State, t: Task): State {
    s.(outstanding := s.outstanding + More(c, t), collected := s.collected + {t})
  }

  function GetOut(c: Config, s: State): State
    requires s.out != [] && s.count > 0
  {
    var t, s' := s.out[0], s.(out := s.out[1..], count := s.count - 1);
    if s.stop then s' else AddMore(c, s', t)
  }

  function Thaw(s: State): State {
    s.(outstanding := s.outstanding + s.frozen, frozen := [], pc := Fill)
  }

  /** The next non-empty group of tasks, or nothing for ever after the last one. */
  function Pull(c: Config, s: State): State {
    if s.nextGroup < |c.groups| then
      s.(outstanding := s.outstanding + c.groups[s.nextGroup], nextGroup := s.nextGroup + 1, pc := Next)
    else s.(pc := Next)
  }

  function Discover(s: State, t: Task, extra: set<Task>): State {
    s.(runAfter := s.runAfter[t := RunAfter(s, t) + extra])
  }

  function ApplyOutcome(c: Config, s: State, t: Task, outcome: Outcome): State {
    match outcome
    case AskLater(front) => s.(frozen := if front then [t] + s.frozen else s.frozen + [t], pc := Loop)
    case SkipMe => AddMore(c, s.(processed := s.processed + 1, hasrun := s.hasrun[t := Skipped], pc := Loop), t)
    case RunMe(result) =>
      var s' := s.(count := s.count + 1, processed := s.processed + 1, started := s.started + {t}, pc := Loop);
      if c.numjobs == 1 then
        // the only job is this very thread
        ReportError(c, s'.(hasrun := s.hasrun[t := result]), t).(out := s.out + [t])
      else s'.(ready := s.ready + [t])
    case Raises =>
      var s' := s.(processed := s.processed + 1, pc := Loop);
      if !s.stop && c.keep > 0 then
        var s'' := s'.(hasrun := s.hasrun[t := Skipped]);
        if c.keep == 1 then
          s''.(stop := true, errors := if c.verbose || s.errors == [] then s.errors + [t] else s.errors)
        else s''.(errors := if c.verbose then s.errors + [t] else s.errors)
      else
        s'.(hasrun := s.hasrun[t := Exception], stop := s.stop || c.keep == 0, errors := s.errors + [t])
  }

  ghost predicate Init(c: Config, s: State) {
    && s.pc == Loop && s.outstanding == [] && s.frozen == [] && s.ready == [] && s.busy == map[] && s.out == []
    && s.count == 0 && s.processed == 1 && s.deadlock == Unset && !s.stop && s.nextGroup == 0 && s.errors == []
    && s.started == {} && s.dropped == {} && s.collected == {}
    && (forall t :: t in s.hasrun ==> s.hasrun[t] == NotRun || s.hasrun[t] == Preset)
    && (forall t :: RunAfter(s, t) <= Deps(c, t))
  }

  /** The state after a run of actions. */
  ghost predicate Run(c: Config, s: State, actions: seq<Action>, s': State)
    decreases |actions|
  {
    if actions == [] then s' == s
    else Enabled(c, s, actions[0]) && Run(c, Apply(c, s, actions[0]), actions[1..], s')
  }

  // ---- The configuration ----

  /** No task is listed twice, in the groups or in the lists of further tasks. */
  ghost predicate Unique(c: Config) {
    && (forall i, k, l :: 0 <= i < |c.groups| && 0 <= k < l < |c.groups[i]| ==> c.groups[i][k] != c.groups[i][l])
    && (forall i, j, x :: 0 <= i < j < |c.groups| && x in c.groups[i] ==> x !in c.groups[j])
    && (forall t, k, l :: 0 <= k < l < |More(c, t)| ==> More(c, t)[k] != More(c, t)[l])
    && (forall t, u, x :: t != u && x in More(c, t) ==> x !in More(c, u))
    && (forall i, t, x :: 0 <= i < |c.groups| && x in c.groups[i] ==> x !in More(c, t))
  }

  ghost predicate InGroups(c: Config, n: nat, x: Task) {
    exists i :: 0 <= i < n && i < |c.groups| && x in c.groups[i]
  }

  /** The producer has been given x: by the iterator, or as a further task of another one. */
  ghost predicate Released(c: Config, s: State, x: Task) {
    InGroups(c, s.nextGroup, x) || exists t :: t in s.collected && x in More(c, t)
  }

  // ---- The invariant ----

  ghost function Current(pc: Pc): multiset<Task> {
    if pc.Examine? then multiset{pc.task} else multiset{}
  }

  /** The tasks that have not been started, wherever they wait. */
  ghost function Waiting(s: State): multiset<Task> {
    multiset(s.outstanding) + multiset(s.frozen) + Current(s.pc)
  }

  ghost function InFlight(s: State): multiset<Task> {
    multiset(s.ready) + multiset(s.busy.Keys) + multiset(s.out)
  }

  ghost function All(s: State): multiset<Task> {
    Waiting(s) + InFlight(s)
  }

  /** x is in one place at most, only if the producer was given it, and no longer once it is finished with. */
  ghost predicate Placed(c: Config, s: State, x: Task) {
    && All(s)[x] <= 1
    && (x in All(s) || x in s.started || x in s.dropped || x in s.collected ==> Released(c, s, x))
    && (x in s.collected ==> Ran(s, x) && x !in All(s))
    && (x in s.started ==> x !in Waiting(s))
  }

  ghost predicate Places(c: Config, s: State) {
    && (forall x :: Placed(c, s, x))
    && (s.pc.Examine? ==> !Ran(s, s.pc.task))
    && s.count == |InFlight(s)|
  }

  /** Every task in flight was started, and `hasrun` and the history agree with where it is. */
  ghost predicate Flight(c: Config, s: State) {
    && (forall x :: x in s.ready ==> x in s.started && !Ran(s, x) && x !in s.dropped)
    && (forall x :: x in s.busy ==> BusyOk(s, x))
    && (forall x :: x in s.out ==> x in s.started && (Ran(s, x) || x in s.dropped))
    && (forall x :: x in s.dropped ==> !Ran(s, x) && x in s.started && s.stop)
    && (c.numjobs == 1 ==> s.ready == [] && s.busy == map[])
  }

  ghost predicate BusyOk(s: State, x: Task)
    requires x in s.busy
  {
    x in s.started && x !in s.dropped && (Ran(s, x) <==> s.busy[x] == Recorded || s.busy[x] == Reported)
  }

  /** Nothing the producer was given is forgotten while its loop goes on. */
  ghost predicate Accounted(c: Config, s: State) {
    s.pc != Drain && s.pc != Done ==>
      forall x :: Released(c, s, x) ==> x in All(s) || Ran(s, x) || x in s.dropped
  }

  /** When the marker equals the counter, nothing happened since the last thaw. */
  ghost predicate Marker(c: Config, s: State) {
    && (s.deadlock.At? ==> s.deadlock.processed <= s.processed)
    && (s.deadlock == At(s.processed) ==>
         && s.count == 0 && s.pc != AfterGet
         && (s.frozen != [] ==> !s.stop)
         && (s.pc.Examine? ==> !s.stop)
         && forall x :: x in s.frozen ==> Waits(s, x))
    && (s.pc == Deadlocked ==> s.deadlock == At(s.processed) && s.outstanding == [] && s.frozen != [])
    && (forall x :: RunAfter(s, x) <= Deps(c, x))
  }

  ghost predicate Inv(c: Config, s: State) {
    Places(c, s) && Flight(c, s) && Accounted(c, s) && Marker(c, s)
  }

  // ---- Moving tasks from place to place ----

  lemma PopFront(s: seq<Task>)
    requires s != []
    ensures multiset(s) == multiset{s[0]} + multiset(s[1..])
  {
    assert s == [s[0]] + s[1..];
  }

  lemma {:induction false} DistinctMultiset(s: seq<Task>)
    requires forall k, l :: 0 <= k < l < |s| ==> s[k] != s[l]
    ensures forall x :: multiset(s)[x] <= 1
  {
    if s != [] {
      PopFront(s);
      DistinctMultiset(s[1..]);
      if s[0] in multiset(s[1..]) {
        var k :| 0 <= k < |s[1..]| && s[1..][k] == s[0];
        assert s[0] != s[k + 1];
      }
    }
  }

  // ---- Every action keeps the invariant ----

  /** No task appears anywhere that was not there before. */
  lemma NothingNew(c: Config, s: State, s': State)
    requires Places(c, s)
    requires All(s') <= All(s) && s'.count == |InFlight(s')|
    requires s'.nextGroup == s.nextGroup && s'.collected == s.collected
    requires forall x :: x in s'.started || x in s'.dropped ==> x in s.started || x in s.dropped || x in All(s)
    requires forall x :: x in s'.started ==> x !in Waiting(s')
    requires forall x :: Ran(s, x) ==> Ran(s', x)
    requires s'.pc.Examine? ==> !Ran(s', s'.pc.task)
    ensures Places(c, s')
  {
    hide Waiting, InFlight, All;
    forall x ensures Placed(c, s', x) {
      assert Placed(c, s, x) && All(s')[x] <= All(s)[x];
      assert Released(c, s', x) <==> Released(c, s, x);
    }
  }

  lemma NothingLost(c: Config, s: State, s': State)
    requires Accounted(c, s) && s.pc != Drain && s.pc != Done
    requires s'.nextGroup == s.nextGroup && s'.collected == s.collected
    requires forall x :: x in All(s) ==> x in All(s') || Ran(s', x) || x in s'.dropped
    requires forall x :: Ran(s, x) ==> Ran(s', x)
    requires s.dropped <= s'.dropped
    ensures Accounted(c, s')
  {
    hide Waiting, InFlight;
    forall x ensures Released(c, s', x) <==> Released(c, s, x) {}
  }

  lemma LeftLoop(c: Config, s: State)
    requires s.pc == Drain || s.pc == Done
    ensures Accounted(c, s)
  {}

  lemma WaitsSame(s: State, s': State)
    requires s'.hasrun == s.hasrun && s'.runAfter == s.runAfter
    ensures forall x :: Waits(s', x) <==> Waits(s, x)
  {
    forall x ensures Waits(s', x) <==> Waits(s, x) {
      assert RunAfter(s', x) == RunAfter(s, x);
      assert forall d :: Ran(s', d) <==> Ran(s, d);
    }
  }

  predicate MovesOnly(a: Action) {
    a.TestStop? || a.RefillEnd? || a.FillEnd? || a.FillThaw? || a.FillDeadlock? || a.GetThaw? || a.GetAgain? ||
    a.NextNone? || a.NextExamine? || a.DrainEnd? || a.NextRan? || a.NextStop?
  }

  /** What all these actions leave alone. */
  ghost predicate MoveFrame(s: State, s': State) {
    && s'.ready == s.ready && s'.busy == s.busy && s'.out == s.out && s'.count == s.count && s'.stop == s.stop
    && s'.started == s.started && s'.dropped == s.dropped && s'.collected == s.collected
    && s'.nextGroup == s.nextGroup && s'.hasrun == s.hasrun && s'.runAfter == s.runAfter
  }

  lemma PopFields(c: Config, s: State, a: Action)
    requires Enabled(c, s, a) && (a.NextExamine? || a.NextRan? || a.NextStop?)
    ensures
      var s' := Apply(c, s, a);
      && MoveFrame(s, s') && s.pc == Next && s.outstanding != [] && s'.outstanding == s.outstanding[1..]
      && s'.frozen == s.frozen
      && s'.pc == (if a.NextExamine? then Examine(s.outstanding[0]) else if a.NextRan? then Loop else Drain)
  {}

  lemma PopLists(c: Config, s: State, a: Action)
    requires Enabled(c, s, a) && (a.NextExamine? || a.NextRan? || a.NextStop?)
    ensures
      var s' := Apply(c, s, a);
      && MoveFrame(s, s')
      && Waiting(s) == Waiting(s') + (if a.NextExamine? then multiset{} else multiset{s.outstanding[0]})
  {
    PopFields(c, s, a);
    hide Enabled, Apply;
    PopFront(s.outstanding);
  }

  lemma StayFields(c: Config, s: State, a: Action)
    requires Enabled(c, s, a) && MovesOnly(a) && !a.NextExamine? && !a.NextRan? && !a.NextStop?
    ensures
      var s' := Apply(c, s, a);
      && MoveFrame(s, s') && !s.pc.Examine? && !s'.pc.Examine?
      && (if a.FillThaw? || a.GetThaw? then s'.outstanding == s.outstanding + s.frozen && s'.frozen == []
          else s'.outstanding == s.outstanding && s'.frozen == s.frozen)
  {}

  lemma StayLists(c: Config, s: State, a: Action)
    requires Enabled(c, s, a) && MovesOnly(a) && !a.NextExamine? && !a.NextRan? && !a.NextStop?
    ensures
      var s' := Apply(c, s, a);
      MoveFrame(s, s') && Waiting(s') == Waiting(s)
  {
    StayFields(c, s, a);
    hide Enabled, Apply;
  }

  lemma MoveKeepsMarker(c: Config, s: State, a: Action)
    requires Marker(c, s) && Enabled(c, s, a) && MovesOnly(a)
    requires MoveFrame(s, Apply(c, s, a))
    ensures Marker(c, Apply(c, s, a))
  {
    hide Waits;
    var s' := Apply(c, s, a);
    WaitsSame(s, s');
  }

  lemma MoveFacts(c: Config, s: State, s': State)
    requires MoveFrame(s, s')
    ensures InFlight(s') == InFlight(s)
    ensures forall x :: Ran(s', x) <==> Ran(s, x)
    ensures Flight(c, s) ==> Flight(c, s')
  {
    assert forall x :: Ran(s', x) <==> Ran(s, x);
    if Flight(c, s) {
      forall x | x in s'.busy ensures BusyOk(s', x) { assert BusyOk(s, x); }
    }
  }

  lemma MoveKeepsPlaces(c: Config, s: State, s': State)
    requires Places(c, s) && MoveFrame(s, s') && Waiting(s') <= Waiting(s)
    requires s'.pc.Examine? ==> !Ran(s', s'.pc.task)
    ensures Places(c, s')
  {
    MoveFacts(c, s, s');
    hide Waiting, InFlight, Flight;
    forall x | x in Waiting(s') ensures x in Waiting(s) && x !in s.started {
      assert Waiting(s')[x] <= Waiting(s)[x] && Placed(c, s, x);
    }
    NothingNew(c, s, s');
  }

  lemma MoveKeepsInv(c: Config, s: State, a: Action)
    requires Inv(c, s) && Enabled(c, s, a) && MovesOnly(a)
    ensures Inv(c, Apply(c, s, a))
  {
    hide Waiting, InFlight, Places, Flight, Accounted, Marker;
    var s' := Apply(c, s, a);
    if a.NextExamine? || a.NextRan? || a.NextStop? { PopLists(c, s, a); } else { StayLists(c, s, a); }
    MoveFacts(c, s, s');
    MoveKeepsPlaces(c, s, s');
    MoveKeepsMarker(c, s, a);
    if s'.pc == Drain || s'.pc == Done {
      LeftLoop(c, s');
    } else {
      NothingLost(c, s, s');
    }
  }

  // ---- Workers ----

  ghost predicate WorkerFrame(s: State, s': State) {
    && s'.pc == s.pc && s'.outstanding == s.outstanding && s'.frozen == s.frozen && s'.count == s.count
    && s'.processed == s.processed && s'.deadlock == s.deadlock && s'.nextGroup == s.nextGroup
    && s'.started == s.started && s'.collected == s.collected && s'.runAfter == s.runAfter
    && (s.stop ==> s'.stop) && s.dropped <= s'.dropped
  }

  /** t is in flight; nothing else happens to `hasrun` and the dropped tasks than what happens to t. */
  ghost predicate TouchesOnly(s: State, s': State, t: Task) {
    && WorkerFrame(s, s') && t in InFlight(s) && InFlight(s') == InFlight(s)
    && (forall x :: x != t ==> (Ran(s', x) <==> Ran(s, x)))
    && (Ran(s, t) ==> Ran(s', t))
    && (forall x :: x in s'.dropped ==> x in s.dropped || x == t)
  }

  lemma TakeStep(c: Config, s: State, s': State)
    requires Flight(c, s) && forall x :: InFlight(s)[x] <= 1
    requires s.ready != [] && s' == s.(ready := s.ready[1..], busy := s.busy[s.ready[0] := Got])
    requires c.numjobs != 1
    ensures Flight(c, s') && TouchesOnly(s, s', s.ready[0])
  {
    var t := s.ready[0];
    PopFront(s.ready);
    assert InFlight(s)[t] == 1 + multiset(s.ready[1..])[t] + multiset(s.busy.Keys)[t] + multiset(s.out)[t];
    assert s'.busy.Keys == s.busy.Keys + {t};
    assert t in s.ready;
    forall x ensures Ran(s', x) <==> Ran(s, x) {}
    forall x | x in s'.busy ensures BusyOk(s', x) { assert x != t ==> BusyOk(s, x); }
    forall x | x in s'.ready ensures x in s.ready {}
  }

  lemma OnlyHeld(s: State, t: Task)
    requires t in s.busy && forall x :: InFlight(s)[x] <= 1
    ensures t !in s.ready && t !in s.out && t in InFlight(s)
  {
    assert InFlight(s)[t] == multiset(s.ready)[t] + 1 + multiset(s.out)[t];
  }

  lemma HandBackLists(s: State, s': State, t: Task)
    requires t in s.busy && s'.ready == s.ready && s'.busy == s.busy - {t} && s'.out == s.out + [t]
    ensures InFlight(s') == InFlight(s)
  {
    assert s.busy.Keys == s'.busy.Keys + {t};
    assert multiset(s.busy.Keys) == multiset(s'.busy.Keys) + multiset{t};
  }

  lemma HandBackFlight(c: Config, s: State, s': State, t: Task)
    requires Flight(c, s) && t in s.busy && t !in s.ready && t !in s.out
    requires s'.ready == s.ready && s'.busy == s.busy - {t} && s'.out == s.out + [t] && s'.stop == s.stop
    requires s'.hasrun == s.hasrun && s'.started == s.started
    requires (s'.dropped == s.dropped + {t} && s.stop && s.busy[t] == Got) ||
             (s'.dropped == s.dropped && s.busy[t] == Reported)
    ensures Flight(c, s') && forall x :: Ran(s', x) <==> Ran(s, x)
  {
    assert BusyOk(s, t);
    forall x ensures Ran(s', x) <==> Ran(s, x) {}
    forall x | x in s'.busy ensures BusyOk(s', x) { assert BusyOk(s, x); }
    forall x | x in s'.out ensures x in s.out || x == t {}
  }

  lemma HandBackStep(c: Config, s: State, s': State, t: Task, drop: bool)
    requires Flight(c, s) && t in s.busy && forall x :: InFlight(s)[x] <= 1
    requires s' == HandBack(s, t).(dropped := if drop then s.dropped + {t} else s.dropped)
    requires if drop then s.stop && s.busy[t] == Got else s.busy[t] == Reported
    ensures Flight(c, s') && TouchesOnly(s, s', t)
  {
    OnlyHeld(s, t);
    HandBackLists(s, s', t);
    hide InFlight, Flight;
    HandBackFlight(c, s, s', t);
  }

  lemma PhaseStep(c: Config, s: State, s': State, t: Task, p: Phase)
    requires Flight(c, s) && t in s.busy && forall x :: InFlight(s)[x] <= 1
    requires s'.busy == s.busy[t := p] && s'.ready == s.ready && s'.out == s.out
    requires WorkerFrame(s, s') && s'.dropped == s.dropped && s'.hasrun == s.hasrun
    requires (s.busy[t] == Got && p == Running) || (s.busy[t] == Recorded && p == Reported)
    ensures Flight(c, s') && TouchesOnly(s, s', t)
  {
    OnlyHeld(s, t);
    assert BusyOk(s, t);
    assert s'.busy.Keys == s.busy.Keys;
    assert InFlight(s') == InFlight(s);
    forall x ensures Ran(s', x) <==> Ran(s, x) {}
    forall x | x in s'.busy ensures BusyOk(s', x) { assert BusyOk(s, x); }
  }

  lemma FinishStep(c: Config, s: State, s': State, t: Task, r: Status)
    requires Flight(c, s) && t in s.busy && forall x :: InFlight(s)[x] <= 1
    requires s' == s.(busy := s.busy[t := Recorded], hasrun := s.hasrun[t := r])
    requires s.busy[t] == Running && r != NotRun
    ensures Flight(c, s') && TouchesOnly(s, s', t)
  {
    OnlyHeld(s, t);
    assert BusyOk(s, t);
    assert s'.busy.Keys == s.busy.Keys;
    assert InFlight(s') == InFlight(s);
    assert Ran(s', t);
    forall x ensures x != t ==> (Ran(s', x) <==> Ran(s, x)) {}
    forall x | x in s'.busy ensures BusyOk(s', x) { assert BusyOk(s, x); }
  }

  lemma WorkerKeepsInv(c: Config, s: State, a: Action)
    requires Inv(c, s) && Enabled(c, s, a) && ByWorker(a)
    ensures Inv(c, Apply(c, s, a))
  {
    hide Waiting, InFlight, Flight, Places, Accounted, Marker, Waits, TouchesOnly, WorkerFrame, BusyOk;
    var s' := Apply(c, s, a);
    var t := if a.Take? then s.ready[0] else a.t;
    SingleInFlight(c, s);
    match a {
      case Take => TakeStep(c, s, s');
      case Check(_) =>
        if s.stop { HandBackStep(c, s, s', t, true); } else { FrameOfPhase(s, s'); PhaseStep(c, s, s', t, Running); }
      case Finish(_, r) => FinishStep(c, s, s', t, r);
      case Report(_) => FrameOfPhase(s, s'); PhaseStep(c, s, s', t, Reported);
      case Put(_) => HandBackStep(c, s, s', t, false);
    }
    TouchKeepsRest(c, s, s', t);
  }

  lemma SingleInFlight(c: Config, s: State)
    requires Places(c, s) && Flight(c, s)
    ensures forall x :: InFlight(s)[x] <= 1
    ensures c.numjobs == 1 ==> s.ready == [] && s.busy == map[]
  {
    forall x ensures InFlight(s)[x] <= 1 { assert Placed(c, s, x); }
  }

  lemma FrameOfPhase(s: State, s': State)
    requires s' == s.(busy := s'.busy, hasrun := s'.hasrun, stop := s'.stop, errors := s'.errors) &&
             (s.stop ==> s'.stop)
    ensures WorkerFrame(s, s') && s'.dropped == s.dropped
  {}

  /** While a worker can act something is in flight, so the deadlock marker is stale. */
  lemma TouchKeepsRest(c: Config, s: State, s': State, t: Task)
    requires Places(c, s) && Accounted(c, s) && Marker(c, s) && TouchesOnly(s, s', t)
    ensures Places(c, s') && Accounted(c, s') && Marker(c, s')
  {
    assert Waiting(s') == Waiting(s);
    assert s.pc.Examine? ==> s.pc.task in Waiting(s);
    assert Placed(c, s, t);
    assert t !in Waiting(s);
    hide Waiting, InFlight;
    forall x ensures x in s.started ==> x !in Waiting(s) { assert Placed(c, s, x); }
    NothingNew(c, s, s');
    if s.pc == Drain || s.pc == Done { LeftLoop(c, s'); } else { NothingLost(c, s, s'); }
    StaleMarker(c, s, s');
  }

  lemma StaleMarker(c: Config, s: State, s': State)
    requires Marker(c, s) && WorkerFrame(s, s') && s.count > 0
    ensures Marker(c, s')
  {
    hide Waits;
    forall x ensures RunAfter(s', x) == RunAfter(s, x) {}
  }

  // ---- The producer collects, pulls a group, and examines a task ----

  /** The tasks of n, unknown so far, are given to the producer. */
  lemma Gained(c: Config, s: State, s': State, n: seq<Task>, x: Task)
    requires Placed(c, s, x)
    requires All(s')[x] <= All(s)[x] + multiset(n)[x] && Waiting(s')[x] <= All(s')[x]
    requires x in n ==> !Released(c, s, x) && multiset(n)[x] == 1
    requires Released(c, s', x) <==> Released(c, s, x) || x in n
    requires x in s'.collected ==> x in s.collected || (Ran(s', x) && x in All(s) && x !in All(s'))
    requires x in s'.started || x in s'.dropped ==> x in s.started || x in s.dropped || x in All(s)
    requires x in s'.started ==> x in n || x !in Waiting(s')
    requires Ran(s, x) ==> Ran(s', x)
    ensures Placed(c, s', x)
  {
    hide Waiting, InFlight, Released, All;
  }

  lemma GainedAccounted(c: Config, s: State, s': State, n: seq<Task>)
    requires Accounted(c, s) && s.pc != Drain && s.pc != Done
    requires forall x :: Released(c, s', x) <==> Released(c, s, x) || x in n
    requires forall x :: x in n ==> x in All(s')
    requires forall x :: x in All(s) ==> x in All(s') || Ran(s', x) || x in s'.dropped
    requires forall x :: Ran(s, x) ==> Ran(s', x)
    requires s.dropped <= s'.dropped
    ensures Accounted(c, s')
  {
    hide Waiting, InFlight, Released;
  }

  lemma MoreFresh(c: Config, s: State, s': State, t: Task)
    requires Unique(c) && t !in s.collected
    requires s'.collected == s.collected + {t} && s'.nextGroup == s.nextGroup
    ensures forall x :: x in More(c, t) ==> !Released(c, s, x) && multiset(More(c, t))[x] == 1
    ensures forall x :: Released(c, s', x) <==> Released(c, s, x) || x in More(c, t)
  {
    DistinctMultiset(More(c, t));
    forall x ensures Released(c, s', x) <==> Released(c, s, x) || x in More(c, t) {
      if x in More(c, t) { assert t in s'.collected; }
    }
  }

  lemma GroupFresh(c: Config, s: State, s': State)
    requires Unique(c) && s.nextGroup < |c.groups|
    requires s'.collected == s.collected && s'.nextGroup == s.nextGroup + 1
    ensures forall x :: x in c.groups[s.nextGroup] ==> !Released(c, s, x) && multiset(c.groups[s.nextGroup])[x] == 1
    ensures forall x :: Released(c, s', x) <==> Released(c, s, x) || x in c.groups[s.nextGroup]
  {
    DistinctMultiset(c.groups[s.nextGroup]);
    forall x ensures InGroups(c, s'.nextGroup, x) <==> InGroups(c, s.nextGroup, x) || x in c.groups[s.nextGroup] {
      if x in c.groups[s.nextGroup] { assert 0 <= s.nextGroup < s'.nextGroup; }
    }
  }

  lemma CollectLists(c: Config, s: State)
    requires s.out != [] && s.count > 0
    ensures
      var s' := GetOut(c, s);
      && InFlight(s) == InFlight(s') + multiset{s.out[0]}
      && Waiting(s') == Waiting(s) + (if s.stop then multiset{} else multiset(More(c, s.out[0])))
  {
    PopFront(s.out);
  }

  lemma CollectKeepsFlight(c: Config, s: State)
    requires Flight(c, s) && s.out != [] && s.count > 0
    ensures
      var s' := GetOut(c, s);
      Flight(c, s') && (forall x :: Ran(s', x) <==> Ran(s, x)) &&
          (Ran(s, s.out[0]) || (s.stop && s.out[0] in s.dropped))
  {
    var s' := GetOut(c, s);
    forall x ensures Ran(s', x) <==> Ran(s, x) {}
    forall x | x in s'.busy ensures BusyOk(s', x) { assert BusyOk(s, x); }
    forall x | x in s'.out ensures x in s.out {}
    assert s.out[0] in s.out;
  }

  /** t is finished with: it leaves the lists, and its further tasks come in. */
  ghost predicate FinishedWith(c: Config, s: State, s': State, t: Task) {
    && t in All(s) && All(s') + multiset{t} == All(s) + multiset(More(c, t)) && s'.count == |InFlight(s')|
    && s'.collected == s.collected + {t} && s'.nextGroup == s.nextGroup && Ran(s', t)
    && s'.started == s.started && s'.dropped == s.dropped
    && (forall x :: Ran(s, x) ==> Ran(s', x))
    && Waiting(s') <= Waiting(s) + multiset(More(c, t))
  }

  lemma FinishedOne(c: Config, s: State, s': State, t: Task, x: Task)
    requires FinishedWith(c, s, s', t) && Placed(c, s, t) && Placed(c, s, x)
    requires x in More(c, t) ==> !Released(c, s, x) && multiset(More(c, t))[x] == 1
    requires Released(c, s', x) <==> Released(c, s, x) || x in More(c, t)
    ensures Placed(c, s', x)
    ensures x in More(c, t) ==> x in All(s')
    ensures x in All(s) ==> x in All(s') || Ran(s', x)
  {
    var n := multiset(More(c, t));
    assert (All(s') + multiset{t})[x] == (All(s) + n)[x];
    assert (All(s') + multiset{t})[t] == (All(s) + n)[t];
    assert Waiting(s')[x] <= (Waiting(s) + n)[x];
    assert Waiting(s')[x] <= All(s')[x];
    hide Waiting, InFlight, Released, All;
    Gained(c, s, s', More(c, t), x);
  }

  lemma FinishedKeeps(c: Config, s: State, s': State, t: Task)
    requires Unique(c) && Places(c, s) && FinishedWith(c, s, s', t)
    requires s'.pc.Examine? ==> !Ran(s', s'.pc.task)
    ensures Places(c, s')
    ensures Accounted(c, s) && s.pc != Drain && s.pc != Done ==> Accounted(c, s')
  {
    assert Placed(c, s, t);
    MoreFresh(c, s, s', t);
    hide Waiting, InFlight, Released, All, Unique, Placed;
    forall x
      ensures Placed(c, s', x) && (x in More(c, t) ==> x in All(s')) && (x in All(s) ==> x in All(s') || Ran(s', x))
    {
      FinishedOne(c, s, s', t, x);
    }
    if Accounted(c, s) && s.pc != Drain && s.pc != Done {
      GainedAccounted(c, s, s', More(c, t));
    }
  }

  lemma CollectFrame(c: Config, s: State)
    requires s.out != [] && s.count > 0
    ensures
      var s', t := GetOut(c, s), s.out[0];
      && s'.count == s.count - 1 && s'.nextGroup == s.nextGroup && s'.started == s.started && s'.dropped == s.dropped
      && s'.pc == s.pc && (s.stop ==> s' == s.(out := s.out[1..], count := s.count - 1))
      && (!s.stop ==> s'.collected == s.collected + {t})
  {}

  lemma CollectFinishes(c: Config, s: State)
    requires Flight(c, s) && s.out != [] && s.count > 0 && s.count == |InFlight(s)|
    ensures GetOut(c, s).count == |InFlight(GetOut(c, s))|
    ensures !s.stop ==> FinishedWith(c, s, GetOut(c, s), s.out[0])
  {
    CollectLists(c, s);
    CollectKeepsFlight(c, s);
    CollectFrame(c, s);
    hide InFlight, Waiting, Flight, GetOut, Ran;
    CollectIn(s, GetOut(c, s), s.out[0]);
    if !s.stop { CollectMoves(s, GetOut(c, s), s.out[0], More(c, s.out[0])); }
  }

  lemma CollectMoves(s: State, s': State, t: Task, more: seq<Task>)
    requires InFlight(s) == InFlight(s') + multiset{t} && Waiting(s') == Waiting(s) + multiset(more)
    ensures All(s') + multiset{t} == All(s) + multiset(more)
  {
    hide InFlight, Waiting;
  }

  lemma CollectKeepsPlaces(c: Config, s: State)
    requires Unique(c) && Places(c, s) && Flight(c, s) && s.out != [] && s.count > 0
    ensures Places(c, GetOut(c, s))
    ensures Accounted(c, s) && s.pc != Drain && s.pc != Done ==> Accounted(c, GetOut(c, s))
  {
    assert s.count == |InFlight(s)|;
    CollectFinishes(c, s);
    CollectKeepsFlight(c, s);
    CollectLists(c, s);
    CollectFrame(c, s);
    hide InFlight, Waiting, All, Flight, Accounted, Unique, Places, FinishedWith, GetOut;
    var s', t := GetOut(c, s), s.out[0];
    ExaminedNotRun(c, s, s');
    if s.stop {
      StoppedCollect(c, s, s', t);
    } else {
      FinishedKeeps(c, s, s', t);
    }
  }

  lemma StoppedCollect(c: Config, s: State, s': State, t: Task)
    requires Places(c, s) && s.out != [] && s.count > 0 && s' == s.(out := s.out[1..], count := s.count - 1)
    requires InFlight(s) == InFlight(s') + multiset{t} && Waiting(s') == Waiting(s)
    requires Ran(s, t) || t in s.dropped
    ensures Places(c, s')
    ensures Accounted(c, s) && s.pc != Drain && s.pc != Done ==> Accounted(c, s')
  {
    assert forall x :: Ran(s', x) <==> Ran(s, x);
    hide InFlight, Waiting;
    forall x | x in s.started ensures x !in Waiting(s) { assert Placed(c, s, x); }
    NothingNew(c, s, s');
    if Accounted(c, s) && s.pc != Drain && s.pc != Done {
      forall x | x in All(s) ensures x in All(s') || Ran(s', x) || x in s'.dropped {
        assert (All(s') + multiset{t})[x] == All(s)[x];
      }
      NothingLost(c, s, s');
    }
  }

  lemma CollectIn(s: State, s': State, t: Task)
    requires InFlight(s) == InFlight(s') + multiset{t} && s.count == |InFlight(s)| && s'.count == s.count - 1
    ensures t in All(s) && s'.count == |InFlight(s')|
  {
    hide Waiting;
    assert InFlight(s)[t] > 0;
  }

  lemma ExaminedNotRun(c: Config, s: State, s': State)
    requires Places(c, s) && s'.pc == s.pc && forall x :: Ran(s', x) <==> Ran(s, x)
    ensures s'.pc.Examine? ==> !Ran(s', s'.pc.task)
  {}

  lemma CollectKeepsInv(c: Config, s: State, a: Action)
    requires Unique(c) && Inv(c, s) && Enabled(c, s, a) && (a.RefillGet? || a.FillGet? || a.DrainGet?)
    ensures Inv(c, Apply(c, s, a))
  {
    hide Unique, Places, Flight, Accounted, Marker;
    var s1, s' := GetOut(c, s), Apply(c, s, a);
    CollectKeepsPlaces(c, s);
    CollectKeepsFlight(c, s);
    assert s' == s1.(pc := s'.pc);
    PcOnly(c, s1, s');
    if s'.pc == Drain { LeftLoop(c, s'); }
    CollectMarker(c, s, s');
  }

  lemma CollectMarker(c: Config, s: State, s': State)
    requires Marker(c, s) && s.count > 0 && s.pc != Deadlocked && s'.pc != Deadlocked
    requires s'.deadlock == s.deadlock && s'.processed == s.processed && s'.runAfter == s.runAfter
    ensures Marker(c, s')
  {
    hide Waits;
    forall x ensures RunAfter(s', x) == RunAfter(s, x) {}
  }

  /** Changing the program counter alone, not to or from an examination. */
  lemma PcOnly(c: Config, s: State, s': State)
    requires s' == s.(pc := s'.pc) && !s.pc.Examine? && !s'.pc.Examine?
    ensures Places(c, s) ==> Places(c, s')
    ensures Flight(c, s) ==> Flight(c, s')
    ensures Accounted(c, s) && s.pc != Drain && s.pc != Done ==> Accounted(c, s')
    ensures Waiting(s') == Waiting(s) && InFlight(s') == InFlight(s)
  {
    assert Waiting(s') == Waiting(s) && InFlight(s') == InFlight(s);
    forall x ensures Ran(s', x) <==> Ran(s, x) {}
    forall x ensures Released(c, s', x) <==> Released(c, s, x) {}
    hide Waiting, InFlight;
    if Places(c, s) {
      forall x ensures Placed(c, s', x) { assert Placed(c, s, x); }
    }
    if Flight(c, s) {
      forall x | x in s'.busy ensures BusyOk(s', x) { assert BusyOk(s, x); }
    }
  }

  /** The next group comes in. */
  lemma PullKeepsInv(c: Config, s: State, a: Action)
    requires Unique(c) && Inv(c, s) && Enabled(c, s, a) && (a.FillPull? || a.GetPull?)
    ensures Inv(c, Apply(c, s, a))
  {
    hide Unique, Places, Flight, Accounted, Marker;
    var s' := Pull(c, s);
    if s.nextGroup < |c.groups| {
      PullGroup(c, s);
    } else {
      PcOnly(c, s, s');
    }
    PullMarker(c, s, s');
  }

  lemma PullMarker(c: Config, s: State, s': State)
    requires Marker(c, s) && s' == s.(outstanding := s'.outstanding, nextGroup := s'.nextGroup, pc := Next)
    ensures Marker(c, s')
  {
    WaitsSame(s, s');
    hide Waits;
    forall x ensures RunAfter(s', x) == RunAfter(s, x) {}
  }

  lemma PullGroup(c: Config, s: State)
    requires Unique(c) && Places(c, s) && Flight(c, s) && Accounted(c, s) && s.nextGroup < |c.groups|
    requires s.pc == Fill || s.pc == AfterGet
    ensures Places(c, Pull(c, s)) && Flight(c, Pull(c, s)) && Accounted(c, Pull(c, s))
  {
    hide Waiting, InFlight, All, Unique, Released, Flight, Placed, Accounted;
    var s', n := Pull(c, s), c.groups[s.nextGroup];
    GroupFresh(c, s, s');
    PullFlight(c, s, s');
    PullCounts(c, s);
    forall x ensures Placed(c, s', x) {
      assert Placed(c, s, x);
      PullPlaces(c, s, s', n, x);
    }
    PullAccounted(c, s, s', n);
  }

  lemma PullCounts(c: Config, s: State)
    requires s.nextGroup < |c.groups| && !s.pc.Examine?
    ensures var s', n := Pull(c, s), c.groups[s.nextGroup];
            Waiting(s') == Waiting(s) + multiset(n) && InFlight(s') == InFlight(s) && All(s') == All(s) + multiset(n)
  {}

  lemma PullPlaces(c: Config, s: State, s': State, n: seq<Task>, x: Task)
    requires Waiting(s') == Waiting(s) + multiset(n) && InFlight(s') == InFlight(s) && Placed(c, s, x)
    requires x in n ==> !Released(c, s, x) && multiset(n)[x] == 1
    requires Released(c, s', x) <==> Released(c, s, x) || x in n
    requires s' == s.(outstanding := s'.outstanding, nextGroup := s'.nextGroup, pc := s'.pc)
    ensures Placed(c, s', x)
  {
    PullOne(s, s', n, x);
    hide Waiting, InFlight, All, Released;
    Gained(c, s, s', n, x);
  }

  lemma PullAccounted(c: Config, s: State, s': State, n: seq<Task>)
    requires Accounted(c, s) && s.pc != Drain && s.pc != Done && All(s') == All(s) + multiset(n)
    requires forall x :: Released(c, s', x) <==> Released(c, s, x) || x in n
    requires s' == s.(outstanding := s'.outstanding, nextGroup := s'.nextGroup, pc := s'.pc)
    ensures Accounted(c, s')
  {
    hide Waiting, InFlight, All, Released, Accounted;
    forall x | x in n ensures x in All(s') { assert (All(s) + multiset(n))[x] > 0; }
    GainedAccounted(c, s, s', n);
  }

  lemma PullOne(s: State, s': State, n: seq<Task>, x: Task)
    requires Waiting(s') == Waiting(s) + multiset(n) && InFlight(s') == InFlight(s)
    ensures All(s')[x] == All(s)[x] + multiset(n)[x] && Waiting(s')[x] <= All(s')[x]
    ensures x in Waiting(s') ==> x in Waiting(s) || x in n
  {
    hide Waiting, InFlight;
  }

  lemma PullFlight(c: Config, s: State, s': State)
    requires Flight(c, s) && s' == s.(outstanding := s'.outstanding, nextGroup := s'.nextGroup, pc := s'.pc)
    ensures Flight(c, s')
  {
    forall x ensures Ran(s', x) <==> Ran(s, x) {}
    forall x | x in s'.busy ensures BusyOk(s', x) { assert BusyOk(s, x); }
  }

  // ---- The outcomes of an examination ----

  lemma ExamineFacts(c: Config, s: State, t: Task)
    requires Places(c, s) && Flight(c, s) && s.pc == Examine(t)
    ensures t in Waiting(s) && Waiting(s)[t] == 1 && t !in InFlight(s) && t !in s.started && t !in s.dropped &&
            !Ran(s, t)
    ensures t in All(s)
  {
    assert Placed(c, s, t);
    assert Waiting(s)[t] >= 1;
    assert All(s)[t] == Waiting(s)[t] + InFlight(s)[t];
  }

  /** Only `hasrun` of a task that is not in flight changes, and perhaps `stop`. */
  lemma ElsewhereKeepsFlight(c: Config, s: State, s': State, t: Task)
    requires Flight(c, s) && t !in InFlight(s) && t !in s.dropped
    requires s'.ready == s.ready && s'.busy == s.busy && s'.out == s.out && (s.stop ==> s'.stop)
    requires s'.started == s.started && s'.dropped == s.dropped
    requires forall x :: x != t ==> (Ran(s', x) <==> Ran(s, x))
    ensures Flight(c, s') && InFlight(s') == InFlight(s)
  {
    forall x | x in s.ready ensures x in InFlight(s) {}
    forall x | x in s.busy ensures x in InFlight(s) {}
    forall x | x in s.out ensures x in InFlight(s) {}
    forall x | x in s'.busy ensures BusyOk(s', x) { assert BusyOk(s, x); }
  }

  lemma AskKeeps(c: Config, s: State, s': State, t: Task)
    requires Places(c, s) && Flight(c, s) && Accounted(c, s) && s.pc == Examine(t)
    requires s' == s.(runAfter := s'.runAfter, frozen := s'.frozen, pc := Loop)
    requires s'.frozen == [t] + s.frozen || s'.frozen == s.frozen + [t]
    ensures Places(c, s') && Flight(c, s') && Accounted(c, s')
  {
    ExamineFacts(c, s, t);
    forall x ensures Ran(s', x) <==> Ran(s, x) {}
    ElsewhereKeepsFlight(c, s, s', t);
    assert multiset(s'.frozen) == multiset(s.frozen) + multiset{t};
    assert Waiting(s') == Waiting(s);
    hide Waiting, InFlight, Flight;
    forall x | x in s.started ensures x !in Waiting(s) { assert Placed(c, s, x); }
    NothingNew(c, s, s');
    NothingLost(c, s, s');
  }

  lemma SkipKeeps(c: Config, s: State, s': State, t: Task)
    requires Unique(c) && Places(c, s) && Flight(c, s) && Accounted(c, s) && s.pc == Examine(t)
    requires s' == s.(runAfter := s'.runAfter, processed := s'.processed, hasrun := s.hasrun[t := Skipped], pc := Loop,
                      outstanding := s.outstanding + More(c, t), collected := s.collected + {t})
    ensures Places(c, s') && Flight(c, s') && Accounted(c, s')
  {
    ExamineFacts(c, s, t);
    forall x ensures x != t ==> (Ran(s', x) <==> Ran(s, x)) {}
    assert Ran(s', t);
    hide Released, Unique, Ran;
    ElsewhereKeepsFlight(c, s, s', t);
    SkipMultisets(c, s, s', t);
    hide Waiting, InFlight, Flight, Accounted, Placed, More, StatusOf;
    SkipMoves(s, s', t, More(c, t));
    hide All;
    FinishedKeeps(c, s, s', t);
  }

  lemma SkipMoves(s: State, s': State, t: Task, more: seq<Task>)
    requires Waiting(s') + multiset{t} == Waiting(s) + multiset(more) && InFlight(s') == InFlight(s)
    ensures All(s') + multiset{t} == All(s) + multiset(more)
  {
    hide InFlight, Waiting;
    assert All(s') + multiset{t} == (Waiting(s') + multiset{t}) + InFlight(s');
  }

  lemma SkipMultisets(c: Config, s: State, s': State, t: Task)
    requires s.pc == Examine(t) && s'.pc == Loop
    requires s'.outstanding == s.outstanding + More(c, t) && s'.frozen == s.frozen
    ensures Waiting(s') + multiset{t} == Waiting(s) + multiset(More(c, t))
  {}

  lemma RaiseKeeps(c: Config, s: State, s': State, t: Task)
    requires Places(c, s) && Flight(c, s) && Accounted(c, s) && s.pc == Examine(t)
    requires exists r :: r != NotRun && HasrunSet(s, s', t, r)
    requires s' == s.(runAfter := s'.runAfter, processed := s'.processed, hasrun := s'.hasrun, pc := Loop,
                      stop := s'.stop, errors := s'.errors) && (s.stop ==> s'.stop)
    ensures Places(c, s') && Flight(c, s') && Accounted(c, s')
  {
    ExamineFacts(c, s, t);
    forall x ensures x != t ==> (Ran(s', x) <==> Ran(s, x)) {}
    assert Ran(s', t);
    ElsewhereKeepsFlight(c, s, s', t);
    assert Waiting(s') + multiset{t} == Waiting(s);
    forall x | x in All(s) ensures x in All(s') || x == t {
      assert (Waiting(s') + multiset{t})[x] == Waiting(s)[x];
    }
    forall x | x in s.started ensures x !in Waiting(s') {
      assert Placed(c, s, x) && Waiting(s')[x] <= Waiting(s)[x];
    }
    hide Waiting, InFlight, Flight;
    NothingNew(c, s, s');
    NothingLost(c, s, s');
  }

  ghost predicate HasrunSet(s: State, s': State, t: Task, r: Status) {
    s'.hasrun == s.hasrun[t := r]
  }

  ghost predicate StartFrame(c: Config, s: State, s': State, t: Task) {
    && s'.outstanding == s.outstanding && s'.frozen == s.frozen && s'.busy == s.busy && s'.pc == Loop
    && s'.nextGroup == s.nextGroup && s'.collected == s.collected && s'.dropped == s.dropped
    && s'.count == s.count + 1 && s'.started == s.started + {t} && (s.stop ==> s'.stop)
    && (if c.numjobs == 1 then s'.ready == s.ready && s'.out == s.out + [t] && Ran(s', t)
        else s'.ready == s.ready + [t] && s'.out == s.out && !Ran(s', t))
    && (forall x :: x != t ==> (Ran(s', x) <==> Ran(s, x)))
  }

  lemma StartMultisets(c: Config, s: State, s': State, t: Task)
    requires s.pc == Examine(t) && StartFrame(c, s, s', t)
    ensures Waiting(s) == Waiting(s') + multiset{t}
    ensures InFlight(s') == InFlight(s) + multiset{t}
  {
    hide Ran;
    assert Waiting(s') + multiset{t} == Waiting(s);
    if c.numjobs == 1 {
      assert InFlight(s') == InFlight(s) + multiset{t};
    } else {
      assert InFlight(s') == InFlight(s) + multiset{t};
    }
  }

  lemma AllMoved(s: State, s': State, t: Task)
    requires Waiting(s) == Waiting(s') + multiset{t} && InFlight(s') == InFlight(s) + multiset{t}
    ensures All(s') == All(s)
  {
    hide Waiting, InFlight;
  }

  lemma StartLists(c: Config, s: State, s': State, t: Task)
    requires Places(c, s) && s.pc == Examine(t) && StartFrame(c, s, s', t) && Waiting(s)[t] == 1
    ensures All(s') == All(s) && s'.count == |InFlight(s')|
    ensures forall x :: x in s'.started ==> x !in Waiting(s')
  {
    StartMultisets(c, s, s', t);
    hide Waiting, InFlight, Released, Ran, All;
    forall x | x in s'.started ensures x !in Waiting(s') {
      assert Placed(c, s, x) && (Waiting(s') + multiset{t})[x] == Waiting(s)[x];
    }
    AllMoved(s, s', t);
  }

  /** t is handed to the workers, or, with a single job, run at once. */
  lemma StartKeeps(c: Config, s: State, s': State, t: Task)
    requires Places(c, s) && Flight(c, s) && Accounted(c, s) && s.pc == Examine(t) && StartFrame(c, s, s', t)
    requires !Ran(s, t)
    ensures Places(c, s') && Flight(c, s') && Accounted(c, s')
  {
    ExamineFacts(c, s, t);
    StartFlight(c, s, s', t);
    StartLists(c, s, s', t);
    hide Waiting, InFlight, Flight, Placed, All;
    NothingNew(c, s, s');
    NothingLost(c, s, s');
  }

  lemma StartFlight(c: Config, s: State, s': State, t: Task)
    requires Flight(c, s) && t !in InFlight(s) && t !in s.dropped
    requires s'.busy == s.busy && s'.dropped == s.dropped && s'.started == s.started + {t} && (s.stop ==> s'.stop)
    requires if c.numjobs == 1 then s'.ready == s.ready && s'.out == s.out + [t] && Ran(s', t)
             else s'.ready == s.ready + [t] && s'.out == s.out && !Ran(s', t)
    requires forall x :: x != t ==> (Ran(s', x) <==> Ran(s, x))
    ensures Flight(c, s')
  {
    forall x | x in s.ready ensures x in InFlight(s) {}
    forall x | x in s.busy ensures x in InFlight(s) {}
    forall x | x in s.out ensures x in InFlight(s) {}
    forall x | x in s'.busy ensures BusyOk(s', x) { assert BusyOk(s, x); }
    forall x | x in s'.out ensures x in s.out || x == t {}
    forall x | x in s'.ready ensures x in s.ready || x == t {}
  }

  lemma ExamineKeepsInv(c: Config, s: State, a: Action)
    requires Unique(c) && Inv(c, s) && Enabled(c, s, a) && a.Examined?
    ensures Inv(c, Apply(c, s, a))
  {
    hide Unique, Places, Flight, Accounted, Marker, Ran, Waits;
    var s', t := Apply(c, s, a), s.pc.task;
    match a.outcome {
      case AskLater(_) => AskKeeps(c, s, s', t);
      case SkipMe => SkipKeeps(c, s, s', t);
      case RunMe(result) => StartFacts(c, s, s', t, a.extra, result); StartKeeps(c, s, s', t);
      case Raises => RaiseFacts(c, s, s', t, a.extra); RaiseKeeps(c, s, s', t);
    }
    ExamineMarker(c, s, s', t, a.extra, a.outcome);
  }

  lemma StartFacts(c: Config, s: State, s': State, t: Task, extra: set<Task>, result: Status)
    requires Places(c, s) && s.pc == Examine(t) && (c.numjobs == 1 ==> result != NotRun)
    requires s' == ApplyOutcome(c, Discover(s, t, extra), t, RunMe(result))
    ensures StartFrame(c, s, s', t) && !Ran(s, t)
  {
    hide Waiting, InFlight, Placed;
    if c.numjobs == 1 { assert Ran(s', t); }
  }

  lemma RaiseFacts(c: Config, s: State, s': State, t: Task, extra: set<Task>)
    requires s' == ApplyOutcome(c, Discover(s, t, extra), t, Raises)
    ensures HasrunSet(s, s', t, Skipped) || HasrunSet(s, s', t, Exception)
    ensures s' == s.(runAfter := s'.runAfter, processed := s'.processed, hasrun := s'.hasrun, pc := Loop,
                     stop := s'.stop, errors := s'.errors) && (s.stop ==> s'.stop)
  {}

  lemma DiscoveredDeps(c: Config, s: State, s': State, t: Task, extra: set<Task>)
    requires (forall x :: RunAfter(s, x) <= Deps(c, x)) && extra <= Deps(c, t)
    requires s'.runAfter == Discover(s, t, extra).runAfter
    ensures forall x :: RunAfter(s', x) <= Deps(c, x)
    ensures s'.hasrun == s.hasrun ==> forall x :: Waits(s, x) ==> Waits(s', x)
  {
    forall x ensures RunAfter(s', x) <= Deps(c, x) && RunAfter(s, x) <= RunAfter(s', x) {
      assert x != t ==> RunAfter(s', x) == RunAfter(s, x);
    }
    if s'.hasrun == s.hasrun {
      forall x | Waits(s, x) ensures Waits(s', x) {
        var d :| d in RunAfter(s, x) && !Ran(s, d);
        assert d in RunAfter(s', x) && !Ran(s', d);
      }
    }
  }

  lemma AskMarker(c: Config, s: State, s': State, t: Task)
    requires Marker(c, s) && s.pc == Examine(t) && s'.pc == Loop && Waits(s', t)
    requires s'.count == s.count && s'.stop == s.stop && s'.deadlock == s.deadlock && s'.processed == s.processed
    requires forall x :: RunAfter(s', x) <= Deps(c, x)
    requires forall x :: Waits(s, x) ==> Waits(s', x)
    requires forall x :: x in s'.frozen ==> x in s.frozen || x == t
    ensures Marker(c, s')
  {
    hide Waits, RunAfter;
  }

  lemma BumpMarker(c: Config, s: State, s': State)
    requires Marker(c, s) && s'.pc == Loop
    requires s'.deadlock == s.deadlock && s'.processed == s.processed + 1
    requires forall x :: RunAfter(s', x) <= Deps(c, x)
    ensures Marker(c, s')
  {
    hide Waits, RunAfter;
  }

  lemma OutcomeFrame(c: Config, s: State, t: Task, outcome: Outcome)
    ensures
      var s' := ApplyOutcome(c, s, t, outcome);
      && s'.runAfter == s.runAfter && s'.deadlock == s.deadlock && s'.pc == Loop
      && s'.processed == (if outcome.AskLater? then s.processed else s.processed + 1)
  {}

  lemma ExamineMarker(c: Config, s: State, s': State, t: Task, extra: set<Task>, outcome: Outcome)
    requires Marker(c, s) && s.pc == Examine(t) && extra <= Deps(c, t)
    requires OutcomeFits(c, s, Discover(s, t, extra), t, outcome)
    requires s' == ApplyOutcome(c, Discover(s, t, extra), t, outcome)
    ensures Marker(c, s')
  {
    var s1 := Discover(s, t, extra);
    assert forall x :: RunAfter(s, x) <= Deps(c, x);
    OutcomeFrame(c, s1, t, outcome);
    hide Marker, Waits, RunAfter;
    DiscoveredDeps(c, s, s', t, extra);
    if outcome.AskLater? {
      WaitsSame(s1, s');
      AskMarker(c, s, s', t);
    } else {
      hide ApplyOutcome;
      BumpMarker(c, s, s');
    }
  }

  // ---- Every run ----

  lemma InitInv(c: Config, s: State)
    requires Init(c, s)
    ensures Inv(c, s)
  {}

  lemma StepKeepsInv(c: Config, s: State, a: Action)
    requires Unique(c) && Inv(c, s) && Enabled(c, s, a)
    ensures Inv(c, Apply(c, s, a))
  {
    hide Inv, Apply, Enabled;
    if MovesOnly(a) {
      MoveKeepsInv(c, s, a);
    } else if ByWorker(a) {
      WorkerKeepsInv(c, s, a);
    } else if a.Examined? {
      ExamineKeepsInv(c, s, a);
    } else if a.FillPull? || a.GetPull? {
      PullKeepsInv(c, s, a);
    } else {
      CollectKeepsInv(c, s, a);
    }
  }

  lemma {:induction false} RunKeepsInv(c: Config, s: State, actions: seq<Action>, s': State)
    requires Unique(c) && Inv(c, s) && Run(c, s, actions, s')
    ensures Inv(c, s')
    decreases |actions|
  {
    if actions != [] {
      StepKeepsInv(c, s, actions[0]);
      RunKeepsInv(c, Apply(c, s, actions[0]), actions[1..], s');
    }
  }

  // ---- What an action does to one component ----

  lemma EffectOnStarted(c: Config, s: State, a: Action)
    requires Enabled(c, s, a)
    ensures Apply(c, s, a).started ==
      if a.Examined? && a.outcome.RunMe? && s.pc.Examine? then s.started + {s.pc.task} else s.started
  {
    hide Enabled, ApplyProducer, ApplyWorker, ApplyOutcome;
    ExaminedAtExamine(c, s, a);
    if ByWorker(a) { WorkerEffects(c, s, a); }
    else if a.Examined? { OutcomeEffects(c, Discover(s, s.pc.task, a.extra), s.pc.task, a.outcome); }
    else { ProducerEffects(c, s, a); }
  }

  lemma WorkerEffects(c: Config, s: State, a: Action)
    requires Enabled(c, s, a) && ByWorker(a)
    ensures
      var s' := ApplyWorker(c, s, a);
      && s'.pc == s.pc && s'.outstanding == s.outstanding && s'.nextGroup == s.nextGroup && s'.collected == s.collected
      && s'.hasrun == (if a.Finish? then s.hasrun[a.t := a.result] else s.hasrun) && (s.stop ==> s'.stop)
      && s'.started == s.started && s'.frozen == s.frozen && s'.count == s.count
  {
    hide Enabled;
  }

  lemma OutcomeEffects(c: Config, s: State, t: Task, outcome: Outcome)
    ensures
      var s' := ApplyOutcome(c, s, t, outcome);
      && s'.pc == Loop && s'.nextGroup == s.nextGroup && (s.stop ==> s'.stop)
      && s'.collected == (if outcome.SkipMe? then s.collected + {t} else s.collected)
      && (s'.hasrun == s.hasrun || exists r :: HasrunSet(s, s', t, r))
      && s'.started == (if outcome.RunMe? then s.started + {t} else s.started)
  {
    match outcome {
      case AskLater(_) =>
      case SkipMe => assert HasrunSet(s, ApplyOutcome(c, s, t, outcome), t, Skipped);
      case RunMe(result) => assert c.numjobs == 1 ==> HasrunSet(s, ApplyOutcome(c, s, t, outcome), t, result);
      case Raises =>
        var s' := ApplyOutcome(c, s, t, outcome);
        assert HasrunSet(s, s', t, Skipped) || HasrunSet(s, s', t, Exception);
    }
  }

  lemma OutcomeQueues(c: Config, s: State, t: Task, outcome: Outcome)
    ensures
      var s' := ApplyOutcome(c, s, t, outcome);
      && s'.busy == s.busy && s'.ready == (if outcome.RunMe? && c.numjobs != 1 then s.ready + [t] else s.ready)
  {
    match outcome {
      case AskLater(_) =>
      case SkipMe =>
      case RunMe(result) => assert c.numjobs == 1 || c.numjobs != 1;
      case Raises =>
    }
  }

  ghost predicate ProducerEffect(s: State, s': State, a: Action) {
    && s'.hasrun == s.hasrun && s'.stop == s.stop && s'.started == s.started
    && s'.ready == s.ready && s'.busy == s.busy
    && (a.FillPull? || a.GetPull? || s'.nextGroup == s.nextGroup)
    && (s'.collected == s.collected || (s.out != [] && s'.collected == s.collected + {s.out[0]}))
    && (s'.pc == AfterGet ==> a.FillGet? && s.out != [] && s.outstanding == [])
  }

  lemma ProducerEffects(c: Config, s: State, a: Action)
    requires Enabled(c, s, a) && !ByWorker(a) && !a.Examined?
    ensures ProducerEffect(s, ApplyProducer(c, s, a), a)
  {
    match a {
      case RefillGet => assert s.out != [];
      case FillGet => assert s.out != [];
      case DrainGet => assert s.out != [];
      case FillPull => assert s.nextGroup < |c.groups| || Pull(c, s) == s.(pc := Next);
      case GetPull => assert s.nextGroup < |c.groups| || Pull(c, s) == s.(pc := Next);
      case FillThaw =>
      case GetThaw =>
      case _ =>
    }
  }

  lemma ExaminedAtExamine(c: Config, s: State, a: Action)
    requires Enabled(c, s, a)
    ensures a.Examined? ==> s.pc.Examine?
  {}

  lemma EffectOnHasrun(c: Config, s: State, a: Action)
    requires Enabled(c, s, a)
    ensures !a.Finish? && !a.Examined? ==> Apply(c, s, a).hasrun == s.hasrun
    ensures a.Finish? ==> Apply(c, s, a).hasrun == s.hasrun[a.t := a.result]
    ensures a.Examined? ==>
              s.pc.Examine? && forall x :: x != s.pc.task ==> StatusOf(Apply(c, s, a), x) == StatusOf(s, x)
  {
    hide Enabled, ApplyProducer, ApplyWorker, ApplyOutcome;
    ExaminedAtExamine(c, s, a);
    if ByWorker(a) { WorkerEffects(c, s, a); }
    else if a.Examined? { OutcomeEffects(c, Discover(s, s.pc.task, a.extra), s.pc.task, a.outcome); }
    else { ProducerEffects(c, s, a); }
  }

  lemma EffectOnReleased(c: Config, s: State, a: Action)
    requires Enabled(c, s, a) && !a.FillPull? && !a.GetPull?
    ensures Apply(c, s, a).nextGroup == s.nextGroup
    ensures Apply(c, s, a).collected == s.collected
      || (a.Examined? && s.pc.Examine? && Apply(c, s, a).collected == s.collected + {s.pc.task})
      || (s.out != [] && !a.Examined? && Apply(c, s, a).collected == s.collected + {s.out[0]})
  {
    hide Enabled, ApplyProducer, ApplyWorker, ApplyOutcome;
    ExaminedAtExamine(c, s, a);
    if ByWorker(a) { WorkerEffects(c, s, a); }
    else if a.Examined? { OutcomeEffects(c, Discover(s, s.pc.task, a.extra), s.pc.task, a.outcome); }
    else { ProducerEffects(c, s, a); }
  }

  lemma EffectOnPc(c: Config, s: State, a: Action)
    requires Enabled(c, s, a) && Apply(c, s, a).pc == AfterGet
    ensures (a.FillGet? && s.outstanding == [] && s.out != []) ||
            (s.pc == AfterGet && Apply(c, s, a).outstanding == s.outstanding)
  {
    hide Enabled, ApplyProducer, ApplyWorker, ApplyOutcome;
    ExaminedAtExamine(c, s, a);
    if ByWorker(a) {
      WorkerEffects(c, s, a);
    } else if a.Examined? {
      OutcomeEffects(c, Discover(s, s.pc.task, a.extra), s.pc.task, a.outcome);
    } else {
      ProducerEffects(c, s, a);
      hide Apply;
    }
  }

  lemma StopStays(c: Config, s: State, a: Action)
    requires Enabled(c, s, a) && s.stop
    ensures Apply(c, s, a).stop
  {
    hide Enabled, ApplyProducer, ApplyWorker, ApplyOutcome;
    ExaminedAtExamine(c, s, a);
    if ByWorker(a) { WorkerEffects(c, s, a); }
    else if a.Examined? { OutcomeEffects(c, Discover(s, s.pc.task, a.extra), s.pc.task, a.outcome); }
    else { ProducerEffects(c, s, a); }
  }
}
