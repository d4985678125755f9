/**
 What holds in every run of the build scheduler, whatever the interleaving of its workers
 and whatever the random order in which postponed tasks come back.
 */
module SchedulerTheorems {
  import opened Scheduler

  /** s is reached from some initial state. */
  ghost predicate Reachable(c: Config, s: State) {
    exists s0, actions :: Init(c, s0) && Run(c, s0, actions, s)
  }

  /** The build iterator skips empty groups. */
  ghost predicate NoEmptyGroup(c: Config) {
    forall i :: 0 <= i < |c.groups| ==> c.groups[i] != []
  }

  /** Every group was pulled, and everything that was released has run. */
  ghost predicate AllDone(c: Config, s: State) {
    s.nextGroup >= |c.groups| && forall x :: Released(c, s, x) ==> Ran(s, x)
  }

  lemma ReachableInv(c: Config, s: State)
    requires Unique(c) && Reachable(c, s)
    ensures Inv(c, s)
  {
    var s0, actions :| Init(c, s0) && Run(c, s0, actions, s);
    InitInv(c, s0);
    RunKeepsInv(c, s0, actions, s);
  }

  // ---- The in-flight counter ----

  /** `count` is the number of tasks queued for the workers, held by a worker, or returned and not yet collected. */
  lemma CountIsInFlight(c: Config, s: State)
    requires Unique(c) && Reachable(c, s)
    ensures s.count == |s.ready| + |s.busy| + |s.out|
  {
    ReachableInv(c, s);
    assert |multiset(s.busy.Keys)| == |s.busy.Keys|;
  }

  /** Between a refill and the next task that is handed over, ten tasks for each job may be in flight, else one
      more. */
  ghost predicate FewInFlight(c: Config, s: State) {
    s.count <= c.numjobs * 10 + (if s.pc.Fill? || s.pc.AfterGet? || s.pc.Next? || s.pc.Examine? then 0 else 1)
  }

  lemma ProducerKeepsFew(c: Config, s: State, a: Action)
    requires FewInFlight(c, s) && Enabled(c, s, a) && !ByWorker(a) && !a.Examined?
    ensures FewInFlight(c, ApplyProducer(c, s, a))
  {
    hide Waits;
    if a.RefillGet? || a.FillGet? || a.DrainGet? { CollectFrame(c, s); }
  }

  lemma OutcomeCount(c: Config, s: State, t: Task, outcome: Outcome)
    ensures ApplyOutcome(c, s, t, outcome).count == if outcome.RunMe? then s.count + 1 else s.count
    ensures ApplyOutcome(c, s, t, outcome).pc == Loop
  {
    match outcome {
      case AskLater(_) =>
      case SkipMe =>
      case RunMe(result) => assert c.numjobs == 1 || c.numjobs != 1;
      case Raises =>
    }
  }

  lemma StepKeepsFew(c: Config, s: State, a: Action)
    requires FewInFlight(c, s) && Enabled(c, s, a)
    ensures FewInFlight(c, Apply(c, s, a))
  {
    hide Enabled, ApplyWorker, ApplyOutcome, ApplyProducer;
    if ByWorker(a) {
      WorkerEffects(c, s, a);
    } else if a.Examined? {
      ExaminedAtExamine(c, s, a);
      OutcomeCount(c, Discover(s, s.pc.task, a.extra), s.pc.task, a.outcome);
    } else {
      ProducerKeepsFew(c, s, a);
    }
  }

  lemma {:induction false} RunKeepsFew(c: Config, s: State, actions: seq<Action>, s': State)
    requires FewInFlight(c, s) && Run(c, s, actions, s')
    ensures FewInFlight(c, s')
    decreases |actions|
  {
    if actions != [] {
      StepKeepsFew(c, s, actions[0]);
      RunKeepsFew(c, Apply(c, s, actions[0]), actions[1..], s');
    }
  }

  /** At most ten tasks for each job, and one, are in flight. */
  lemma InFlightBounded(c: Config, s: State)
    requires Reachable(c, s)
    ensures s.count <= c.numjobs * 10 + 1
  {
    var s0, actions :| Init(c, s0) && Run(c, s0, actions, s);
    RunKeepsFew(c, s0, actions, s);
  }

  // ---- At most once, and after its prerequisites ----

  predicate Starts(s: State, a: Action, t: Task) {
    a.Examined? && a.outcome.RunMe? && s.pc.Examine? && s.pc.task == t
  }

  /** How often t is started in a run. */
  ghost function StartCount(c: Config, s: State, actions: seq<Action>, t: Task): nat
    decreases |actions|
  {
    if actions == [] || !Enabled(c, s, actions[0]) then 0
    else (if Starts(s, actions[0], t) then 1 else 0) + StartCount(c, Apply(c, s, actions[0]), actions[1..], t)
  }

  lemma {:induction false} StartedAtMostOnce(c: Config, s: State, actions: seq<Action>, s': State, t: Task)
    requires Unique(c) && Inv(c, s) && Run(c, s, actions, s')
    ensures StartCount(c, s, actions, t) <= if t in s.started then 0 else 1
    decreases |actions|
  {
    if actions != [] {
      var a := actions[0];
      StepKeepsInv(c, s, a);
      EffectOnStarted(c, s, a);
      StartedAtMostOnce(c, Apply(c, s, a), actions[1..], s', t);
      if Starts(s, a, t) { NotYetStarted(c, s); }
    }
  }

  lemma NotYetStarted(c: Config, s: State)
    requires Inv(c, s) && s.pc.Examine?
    ensures s.pc.task !in s.started && s.pc.task !in InFlight(s) && !Ran(s, s.pc.task)
  {
    ExamineFacts(c, s, s.pc.task);
  }

  /** `process` is called for t: by the producer if it is the only job, else by a worker. */
  predicate Calls(c: Config, s: State, a: Action, t: Task) {
    if c.numjobs == 1 then Starts(s, a, t) else a == Check(t)
  }

  /** The call for t may still come. */
  predicate Uncalled(c: Config, s: State, t: Task) {
    t !in s.started || (c.numjobs != 1 && (t in s.ready || (t in s.busy && s.busy[t] == Got)))
  }

  lemma CheckIsFirst(c: Config, s: State, t: Task)
    requires Places(c, s) && Flight(c, s) && t in s.busy
    ensures t in s.started && t !in s.ready
  {
    assert BusyOk(s, t);
    assert Placed(c, s, t);
    hide Placed, Flight, Waiting;
    assert All(s)[t] == Waiting(s)[t] + InFlight(s)[t];
    assert InFlight(s)[t] >= 1 + multiset(s.ready)[t];
  }

  lemma WorkerCallsOnce(c: Config, s: State, a: Action, t: Task)
    requires Enabled(c, s, a) && ByWorker(a) && c.numjobs != 1
    requires t in s.busy ==> t in s.started && t !in s.ready
    ensures a == Check(t) ==> Uncalled(c, s, t) && !Uncalled(c, ApplyWorker(c, s, a), t)
    ensures !Uncalled(c, s, t) ==> !Uncalled(c, ApplyWorker(c, s, a), t)
  {
    match a {
      case Take =>
      case Check(u) =>
      case Finish(u, _) =>
      case Report(u) =>
      case Put(u) =>
    }
  }

  lemma CallsOnce(c: Config, s: State, a: Action, t: Task)
    requires Inv(c, s) && Enabled(c, s, a)
    ensures Calls(c, s, a, t) ==> Uncalled(c, s, t) && !Uncalled(c, Apply(c, s, a), t)
    ensures !Uncalled(c, s, t) ==> !Uncalled(c, Apply(c, s, a), t)
  {
    hide Enabled, ApplyOutcome, ApplyProducer, ApplyWorker, Places, Flight, Accounted, Marker;
    if ByWorker(a) {
      OneJobNoWorkers(c, s, a);
      if t in s.busy { CheckIsFirst(c, s, t); }
      WorkerCallsOnce(c, s, a, t);
    } else if a.Examined? {
      ExaminedAtExamine(c, s, a);
      NotYetStarted(c, s);
      OutcomeEffects(c, Discover(s, s.pc.task, a.extra), s.pc.task, a.outcome);
      OutcomeQueues(c, Discover(s, s.pc.task, a.extra), s.pc.task, a.outcome);
    } else {
      ProducerEffects(c, s, a);
    }
  }

  lemma OneJobNoWorkers(c: Config, s: State, a: Action)
    requires Flight(c, s) && Enabled(c, s, a) && ByWorker(a)
    ensures c.numjobs != 1
  {}

  /** How often `process` is called for t in a run. */
  ghost function CallCount(c: Config, s: State, actions: seq<Action>, t: Task): nat
    decreases |actions|
  {
    if actions == [] || !Enabled(c, s, actions[0]) then 0
    else (if Calls(c, s, actions[0], t) then 1 else 0) + CallCount(c, Apply(c, s, actions[0]), actions[1..], t)
  }

  lemma {:induction false} CalledAtMostOnce(c: Config, s: State, actions: seq<Action>, s': State, t: Task)
    requires Unique(c) && Inv(c, s) && Run(c, s, actions, s')
    ensures CallCount(c, s, actions, t) <= if Uncalled(c, s, t) then 1 else 0
    decreases |actions|
  {
    hide Enabled, Inv, Unique, Calls, Uncalled;
    if actions != [] {
      StepKeepsInv(c, s, actions[0]);
      CallsOnce(c, s, actions[0], t);
      CalledAtMostOnce(c, Apply(c, s, actions[0]), actions[1..], s', t);
    }
  }

  /** No task is handed to the workers twice in a run of the scheduler, or processed twice. */
  lemma ProcessedAtMostOnce(c: Config, s: State, actions: seq<Action>, s': State, t: Task)
    requires Unique(c) && Init(c, s) && Run(c, s, actions, s')
    ensures StartCount(c, s, actions, t) <= 1 && CallCount(c, s, actions, t) <= 1
  {
    InitInv(c, s);
    StartedAtMostOnce(c, s, actions, s', t);
    CalledAtMostOnce(c, s, actions, s', t);
  }

  /** What `hasrun` says about a task, once set, is final. */
  lemma StatusIsFinal(c: Config, s: State, a: Action, t: Task)
    requires Inv(c, s) && Enabled(c, s, a) && Ran(s, t)
    ensures StatusOf(Apply(c, s, a), t) == StatusOf(s, t)
  {
    hide Apply, Waits, Accounted, Marker, Places, Flight;
    EffectOnHasrun(c, s, a);
    if a.Examined? {
      hide Enabled;
      NotYetStarted(c, s);
    } else if a.Finish? {
      NotYetFinished(c, s, a.t);
      hide Enabled;
    } else {
      hide Enabled;
    }
  }

  lemma NotYetFinished(c: Config, s: State, t: Task)
    requires Flight(c, s) && t in s.busy && s.busy[t] == Running
    ensures !Ran(s, t)
  {
    assert BusyOk(s, t);
  }

  lemma {:induction false} StatusStays(c: Config, s: State, actions: seq<Action>, s': State, t: Task)
    requires Unique(c) && Inv(c, s) && Run(c, s, actions, s') && Ran(s, t)
    ensures StatusOf(s', t) == StatusOf(s, t)
    decreases |actions|
  {
    if actions != [] {
      StepKeepsInv(c, s, actions[0]);
      StatusIsFinal(c, s, actions[0], t);
      StatusStays(c, Apply(c, s, actions[0]), actions[1..], s', t);
    }
  }

  lemma RunAfterStart(c: Config, s: State, a: Action, t: Task, d: Task)
    requires Enabled(c, s, a) && Starts(s, a, t) && d in RunAfter(Apply(c, s, a), t)
    ensures Ran(s, d)
  {
    var s1 := Discover(s, t, a.extra);
    assert OutcomeFits(c, s, s1, t, a.outcome);
    OutcomeFrame(c, s1, t, a.outcome);
    assert RunAfter(s1, t) == RunAfter(Apply(c, s, a), t);
    assert Ran(s1, d);
  }

  /** Whenever a task is started, everything it must run after has run, and will be found to have
      run in the same way ever after. */
  lemma PrerequisitesFirst(c: Config, s: State, a: Action, t: Task, later: seq<Action>, s': State, d: Task)
    requires Unique(c) && Reachable(c, s) && Enabled(c, s, a) && Starts(s, a, t)
    requires Run(c, Apply(c, s, a), later, s')
    requires d in RunAfter(Apply(c, s, a), t)
    ensures Ran(s, d) && StatusOf(s', d) == StatusOf(s, d)
  {
    ReachableInv(c, s);
    RunAfterStart(c, s, a, t, d);
    hide Enabled, Apply, Starts;
    StepKeepsInv(c, s, a);
    StatusIsFinal(c, s, a, d);
    StatusStays(c, Apply(c, s, a), later, s', d);
  }

  // ---- Groups ----

  ghost predicate GetInv(c: Config, s: State) {
    s.pc == AfterGet ==> forall x :: x in s.outstanding ==> exists t :: x in More(c, t)
  }

  lemma StepKeepsGetInv(c: Config, s: State, a: Action)
    requires GetInv(c, s) && Enabled(c, s, a)
    ensures GetInv(c, Apply(c, s, a))
  {
    var s' := Apply(c, s, a);
    if s'.pc == AfterGet {
      EffectOnPc(c, s, a);
      if a.FillGet? && s.outstanding == [] && s.out != [] {
        assert forall x :: x in s'.outstanding ==> x in More(c, s.out[0]);
      }
    }
  }

  lemma {:induction false} RunKeepsGetInv(c: Config, s: State, actions: seq<Action>, s': State)
    requires GetInv(c, s) && Run(c, s, actions, s')
    ensures GetInv(c, s')
    decreases |actions|
  {
    if actions != [] {
      StepKeepsGetInv(c, s, actions[0]);
      RunKeepsGetInv(c, Apply(c, s, actions[0]), actions[1..], s');
    }
  }

  lemma ReachableGetInv(c: Config, s: State)
    requires Reachable(c, s)
    ensures GetInv(c, s)
  {
    var s0, actions :| Init(c, s0) && Run(c, s0, actions, s);
    RunKeepsGetInv(c, s0, actions, s);
  }

  lemma PulledElsewhere(c: Config, s: State, x: Task)
    requires Unique(c) && GetInv(c, s) && InGroups(c, s.nextGroup, x) && (s.pc == AfterGet || s.outstanding == [])
    ensures x !in s.outstanding
  {
    var i :| 0 <= i < s.nextGroup && i < |c.groups| && x in c.groups[i];
    assert forall t :: x !in More(c, t);
  }

  /** When the next group is pulled, a task of an earlier group has not run exactly if a worker
      handed it back unrun after the build was stopped. */
  lemma GroupsInOrder(c: Config, s: State, a: Action, x: Task)
    requires Unique(c) && Reachable(c, s) && Enabled(c, s, a) && (a.FillPull? || a.GetPull?)
    requires InGroups(c, s.nextGroup, x)
    ensures !Ran(s, x) <==> x in s.dropped
    ensures !Ran(s, x) ==> s.stop
  {
    ReachableInv(c, s);
    ReachableGetInv(c, s);
    assert Released(c, s, x);
    PulledElsewhere(c, s, x);
    hide Unique, Released, Reachable, GetInv;
    NothingQueued(c, s, x);
  }

  lemma NothingQueued(c: Config, s: State, x: Task)
    requires Inv(c, s) && s.count == 0 && s.frozen == [] && !s.pc.Examine? && x !in s.outstanding
    requires s.pc != Drain && s.pc != Done && Released(c, s, x)
    ensures !Ran(s, x) <==> x in s.dropped
    ensures !Ran(s, x) ==> s.stop
  {
    hide Released, Marker;
    assert InFlight(s) == multiset{};
    assert x !in All(s);
  }

  // ---- A stopped build pulls a group too early ----

  lemma {:induction false} RunSnoc(c: Config, s0: State, actions: seq<Action>, s: State, a: Action)
    requires Run(c, s0, actions, s) && Enabled(c, s, a)
    ensures Run(c, s0, actions + [a], Apply(c, s, a))
    decreases |actions|
  {
    hide Enabled, Apply;
    if actions == [] {
      assert ([a])[1..] == [];
      assert Run(c, Apply(c, s, a), [], Apply(c, s, a));
    } else {
      assert (actions + [a])[1..] == actions[1..] + [a];
      RunSnoc(c, Apply(c, s0, actions[0]), actions[1..], s, a);
    }
  }

  lemma Reach(c: Config, s: State, a: Action) returns (s': State)
    requires Reachable(c, s) && Enabled(c, s, a)
    ensures s' == Apply(c, s, a) && Reachable(c, s')
  {
    s' := Apply(c, s, a);
    var s0, actions :| Init(c, s0) && Run(c, s0, actions, s);
    RunSnoc(c, s0, actions, s, a);
  }

  const TWO_JOBS := Config(2, 0, false, [[1, 2], [3]], map[], map[])

  const START := State(Loop, [], [], [], map[], [], 0, 1, Unset, false, 0, [], map[], map[], {}, {}, {})

  const FIRST_GROUP := START.(pc := Next, outstanding := [1, 2], nextGroup := 1)

  const ONE_QUEUED := FIRST_GROUP.(pc := Loop, outstanding := [2], ready := [1], count := 1, processed := 2,
                                   started := {1}, runAfter := map[1 := {}])

  const BOTH_QUEUED := ONE_QUEUED.(pc := Fill, outstanding := [], ready := [1, 2], count := 2, processed := 3,
                                   started := {1, 2}, runAfter := map[1 := {}, 2 := {}])

  const CRASHED := BOTH_QUEUED.(ready := [2], out := [1], stop := true, errors := [1], hasrun := map[1 := Crashed])

  lemma StartReachable()
    ensures Reachable(TWO_JOBS, START)
  {
    assert Run(TWO_JOBS, START, [], START);
  }

  lemma PullsFirstGroup()
    ensures Reachable(TWO_JOBS, FIRST_GROUP)
  {
    StartReachable();
    hide Reachable;
    var s := Reach(TWO_JOBS, START, TestStop);
    s := Reach(TWO_JOBS, s, RefillEnd);
    s := Reach(TWO_JOBS, s, FillPull);
    assert s.outstanding == [1, 2];
  }

  const FIRST_EXAMINED: State := FIRST_GROUP.(pc := Examine(1), outstanding := [2])

  lemma ExaminesFirst()
    ensures Reachable(TWO_JOBS, FIRST_EXAMINED)
  {
    PullsFirstGroup();
    hide Reachable;
    var s := Reach(TWO_JOBS, FIRST_GROUP, NextExamine);
    assert s.outstanding == [2];
  }

  lemma QueuesFirst()
    ensures Reachable(TWO_JOBS, ONE_QUEUED)
  {
    ExaminesFirst();
    hide Reachable;
    var s := Reach(TWO_JOBS, FIRST_EXAMINED, Examined({}, RunMe(Success)));
    assert s.ready == [1] && s.started == {1};
    assert s.runAfter == map[1 := {}];
  }

  /** Both tasks of the first group are queued for the workers. */
  lemma QueuesSecond()
    ensures Reachable(TWO_JOBS, BOTH_QUEUED)
  {
    QueuesFirst();
    hide Reachable;
    var s := Reach(TWO_JOBS, ONE_QUEUED, TestStop);
    s := Reach(TWO_JOBS, s, RefillEnd);
    s := Reach(TWO_JOBS, s, FillEnd);
    s := Reach(TWO_JOBS, s, NextExamine);
    assert s == ONE_QUEUED.(pc := Examine(2), outstanding := []);
    QueuesSecondLast(s);
  }

  lemma QueuesSecondLast(s: State)
    requires Reachable(TWO_JOBS, s) && s == ONE_QUEUED.(pc := Examine(2), outstanding := [])
    ensures Reachable(TWO_JOBS, BOTH_QUEUED)
  {
    hide Reachable;
    var s' := Reach(TWO_JOBS, s, Examined({}, RunMe(Success)));
    assert s'.ready == [1, 2] && s'.started == {1, 2};
    assert s'.runAfter == map[1 := {}, 2 := {}];
    s' := Reach(TWO_JOBS, s', TestStop);
    s' := Reach(TWO_JOBS, s', RefillEnd);
  }

  /** The first crashes and stops the build. */
  lemma FirstCrashes()
    ensures Reachable(TWO_JOBS, CRASHED)
  {
    QueuesSecond();
    hide Reachable;
    var s := Reach(TWO_JOBS, BOTH_QUEUED, Take);
    s := Reach(TWO_JOBS, s, Check(1));
    s := Reach(TWO_JOBS, s, Finish(1, Crashed));
    assert s == BOTH_QUEUED.(ready := [2], busy := map[1 := Recorded], hasrun := map[1 := Crashed]);
    FirstReported(s);
  }

  lemma FirstReported(s: State)
    requires Reachable(TWO_JOBS, s)
    requires s == BOTH_QUEUED.(ready := [2], busy := map[1 := Recorded], hasrun := map[1 := Crashed])
    ensures Reachable(TWO_JOBS, CRASHED)
  {
    hide Reachable;
    var s' := Reach(TWO_JOBS, s, Report(1));
    s' := Reach(TWO_JOBS, s', Put(1));
    assert s'.busy == map[];
    assert s'.errors == [1] && s'.out == [1];
  }

  /** The second is then handed back unrun. */
  lemma SecondHandedBack() returns (s: State)
    ensures Reachable(TWO_JOBS, s)
    ensures s == CRASHED.(ready := [], out := [1, 2], dropped := {2})
  {
    FirstCrashes();
    hide Reachable;
    s := Reach(TWO_JOBS, CRASHED, Take);
    s := Reach(TWO_JOBS, s, Check(2));
    assert s.busy == map[];
  }

  /** So a group can be pulled although a task of the group before it has not run: the build was
      stopped, and the task was dropped. */
  lemma GroupPulledTooEarly() returns (s: State)
    ensures Reachable(TWO_JOBS, s) && Enabled(TWO_JOBS, s, GetPull) && s.nextGroup == 1
    ensures InGroups(TWO_JOBS, s.nextGroup, 2) && !Ran(s, 2) && s.stop && 2 in s.dropped
  {
    var c := TWO_JOBS;
    s := SecondHandedBack();
    hide Reachable;
    s := Reach(c, s, FillGet);
    s := Reach(c, s, GetAgain);
    s := Reach(c, s, FillGet);
    assert 2 in c.groups[0];
  }

  // ---- Deadlock ----

  /** The prerequisites of a task of a group are in that or an earlier group, and those of a further
      task are among its siblings, the task that brought it, and that task's own prerequisites. */
  ghost predicate Closed(c: Config) {
    && (forall i, x, d :: 0 <= i < |c.groups| && x in c.groups[i] && d in Deps(c, x) ==> InGroups(c, i + 1, d))
    && (forall t, x, d :: x in More(c, t) && d in Deps(c, x) ==> d in More(c, t) || d == t || d in Deps(c, t))
  }

  ghost predicate Acyclic(c: Config, rank: Task -> nat) {
    forall x, d :: d in Deps(c, x) ==> rank(d) < rank(x)
  }

  ghost predicate KnownClosed(c: Config, s: State) {
    forall x, d :: Released(c, s, x) && d in Deps(c, x) ==> Released(c, s, d)
  }

  lemma StepKeepsKnown(c: Config, s: State, a: Action)
    requires Unique(c) && Closed(c) && Inv(c, s) && KnownClosed(c, s) && Enabled(c, s, a)
    ensures KnownClosed(c, Apply(c, s, a))
  {
    if a.FillPull? || a.GetPull? {
      PullKeepsKnown(c, s, Apply(c, s, a));
    } else {
      EffectOnReleased(c, s, a);
      hide Enabled, Apply, Unique, Closed, KnownClosed, Flight, Accounted, Marker, Released;
      var s' := Apply(c, s, a);
      if s'.collected == s.collected {
        SameKnown(c, s, s');
      } else {
        var t := if a.Examined? then s.pc.task else s.out[0];
        InHandKnown(c, s, t);
        MoreKeepsKnown(c, s, s', t);
      }
    }
  }

  lemma SameKnown(c: Config, s: State, s': State)
    requires KnownClosed(c, s) && s'.collected == s.collected && s'.nextGroup == s.nextGroup
    ensures KnownClosed(c, s')
  {
    forall x ensures Released(c, s', x) <==> Released(c, s, x) {}
  }

  lemma InHandKnown(c: Config, s: State, t: Task)
    requires Places(c, s) && (s.pc == Examine(t) || (s.out != [] && t == s.out[0]))
    ensures Released(c, s, t) && t !in s.collected
  {
    assert t in Waiting(s) || t in InFlight(s) by {
      if s.pc != Examine(t) { assert t in s.out; }
    }
    assert Placed(c, s, t);
  }

  lemma PullKeepsKnown(c: Config, s: State, s': State)
    requires Unique(c) && Closed(c) && KnownClosed(c, s) && s' == Pull(c, s)
    ensures KnownClosed(c, s')
  {
    if s.nextGroup < |c.groups| {
      GroupFresh(c, s, s');
      hide Unique;
      forall x, d | Released(c, s', x) && d in Deps(c, x) ensures Released(c, s', d) {
        if x in c.groups[s.nextGroup] {
          assert InGroups(c, s.nextGroup + 1, d);
        }
      }
    } else {
      forall x ensures Released(c, s', x) <==> Released(c, s, x) {}
    }
  }

  lemma MoreKeepsKnown(c: Config, s: State, s': State, t: Task)
    requires Unique(c) && Closed(c) && KnownClosed(c, s)
    requires s'.collected == s.collected + {t} && s'.nextGroup == s.nextGroup && t !in s.collected && Released(c, s, t)
    ensures KnownClosed(c, s')
  {
    MoreFresh(c, s, s', t);
    hide Unique, Released;
    forall x, d | Released(c, s', x) && d in Deps(c, x) ensures Released(c, s', d) {
      if x in More(c, t) {
        assert d in More(c, t) || d == t || d in Deps(c, t);
      }
    }
  }

  lemma {:induction false} RunKeepsKnown(c: Config, s: State, actions: seq<Action>, s': State)
    requires Unique(c) && Closed(c) && Inv(c, s) && KnownClosed(c, s) && Run(c, s, actions, s')
    ensures KnownClosed(c, s')
    decreases |actions|
  {
    if actions != [] {
      StepKeepsKnown(c, s, actions[0]);
      StepKeepsInv(c, s, actions[0]);
      RunKeepsKnown(c, Apply(c, s, actions[0]), actions[1..], s');
    }
  }

  lemma ReachableKnown(c: Config, s: State)
    requires Unique(c) && Closed(c) && Reachable(c, s)
    ensures KnownClosed(c, s)
  {
    var s0, actions :| Init(c, s0) && Run(c, s0, actions, s);
    hide Run;
    InitInv(c, s0);
    assert KnownClosed(c, s0);
    hide *;
    RunKeepsKnown(c, s0, actions, s);
  }

  /** A deadlock is reported only when it is real: nothing is in flight, nothing was stopped, and each
      postponed task, re-examined with `hasrun` as it is now, waits for a task that has not run. */
  lemma DeadlockIsReal(c: Config, s: State, x: Task)
    requires Unique(c) && Reachable(c, s) && s.pc == Deadlocked
    ensures s.ready == [] && s.busy == map[] && s.out == [] && s.outstanding == [] && s.frozen != [] && !s.stop
    ensures x in s.frozen ==> Waits(s, x)
  {
    ReachableInv(c, s);
    assert |multiset(s.busy.Keys)| == |s.busy.Keys|;
  }

  /** If the groups are closed under prerequisites, it is moreover a circle of postponed tasks. */
  lemma DeadlockIsCircular(c: Config, s: State, x: Task)
    requires Unique(c) && Closed(c) && Reachable(c, s) && s.pc == Deadlocked && x in s.frozen
    ensures exists d :: d in s.frozen && d in RunAfter(s, x)
  {
    ReachableInv(c, s);
    ReachableKnown(c, s);
    hide Unique, Closed, Reachable, Placed, Flight, Accounted, KnownClosed, Deps;
    assert Waits(s, x);
    var d :| d in RunAfter(s, x) && !Ran(s, d);
    CircleStep(c, s, x, d);
  }

  lemma CircleStep(c: Config, s: State, x: Task, d: Task)
    requires Inv(c, s) && KnownClosed(c, s) && s.pc == Deadlocked && x in s.frozen
    requires d in RunAfter(s, x) && !Ran(s, d)
    ensures d in s.frozen
  {
    assert x in Waiting(s);
    assert Placed(c, s, x);
    assert d in Deps(c, x);
    assert Released(c, s, d);
    hide Released, Placed, RunAfter, Waits;
    assert InFlight(s) == multiset{};
    assert d in All(s);
  }

  lemma {:induction false} NoAcyclicCircle(c: Config, s: State, rank: Task -> nat, x: Task)
    requires Unique(c) && Closed(c) && Acyclic(c, rank) && Reachable(c, s) && s.pc == Deadlocked && x in s.frozen
    ensures false
    decreases rank(x)
  {
    DeadlockIsCircular(c, s, x);
    var d :| d in s.frozen && d in RunAfter(s, x);
    ReachableInv(c, s);
    assert d in Deps(c, x);
    NoAcyclicCircle(c, s, rank, d);
  }

  /** With acyclic prerequisites the deadlock error is never raised, under any postponement order. */
  lemma NeverDeadlocks(c: Config, s: State, rank: Task -> nat)
    requires Unique(c) && Closed(c) && Acyclic(c, rank) && Reachable(c, s)
    ensures s.pc != Deadlocked
  {
    if s.pc == Deadlocked {
      DeadlockIsReal(c, s, 0);
      NoAcyclicCircle(c, s, rank, s.frozen[0]);
    }
  }

  // ---- Nobody waits for ever ----

  /** The producer's next action; it is not enabled only while the queue of returned tasks is empty. */
  ghost function ProducerAction(c: Config, s: State): Action {
    match s.pc
    case Loop => TestStop
    case Refill => if s.count > c.numjobs * GAP then RefillGet else RefillEnd
    case Fill =>
      if s.outstanding != [] then FillEnd else if s.count > 0 then FillGet
      else if s.frozen == [] then FillPull else if s.deadlock == At(s.processed) then FillDeadlock else FillThaw
    case AfterGet => if s.frozen != [] then GetThaw else if s.count == 0 then GetPull else GetAgain
    case Next =>
      if s.outstanding == [] then NextNone else if Ran(s, s.outstanding[0]) then NextRan
      else if s.stop then NextStop else NextExamine
    case Examine(t) => if Waits(s, t) then Examined({}, AskLater(true)) else Examined({}, RunMe(Success))
    case _ => if s.errors != [] && s.count > 0 then DrainGet else DrainEnd
  }

  lemma ProducerCanAct(c: Config, s: State)
    requires s.pc != Done && s.pc != Deadlocked
    ensures Enabled(c, s, ProducerAction(c, s)) || (s.count > 0 && s.out == [])
  {
    if s.pc.Examine? {
      var t := s.pc.task;
      var s1 := Discover(s, t, {});
      assert RunAfter(s1, t) == RunAfter(s, t);
      assert Waits(s1, t) <==> Waits(s, t) by {
        assert forall d :: Ran(s1, d) <==> Ran(s, d);
      }
      hide Waits;
    }
  }

  lemma WorkerCanAct(c: Config, s: State)
    requires c.numjobs > 0 && s.count > 0 && s.out == [] && s.count == |s.ready| + |s.busy| + |s.out|
    ensures exists a :: Enabled(c, s, a) && ByWorker(a)
  {
    if s.busy == map[] {
      assert Enabled(c, s, Take);
    } else {
      var t := SomeKey(s.busy);
      var a := match s.busy[t] case Got => Check(t) case Running => Finish(t, Success)
                               case Recorded => Report(t) case Reported => Put(t);
      assert Enabled(c, s, a);
    }
  }

  lemma SomeKey<K, V>(m: map<K, V>) returns (k: K)
    requires m != map[]
    ensures k in m
  {
    assert m.Keys != {};
    k :| k in m.Keys;
  }

  /** As long as the producer has not ended, it or some worker can act. */
  lemma NeverStuck(c: Config, s: State)
    requires Unique(c) && Reachable(c, s) && c.numjobs > 0 && s.pc != Done && s.pc != Deadlocked
    ensures exists a :: Enabled(c, s, a)
  {
    CountIsInFlight(c, s);
    hide Enabled, Reachable, Unique;
    ProducerCanAct(c, s);
    if !Enabled(c, s, ProducerAction(c, s)) {
      WorkerCanAct(c, s);
    }
  }

  // ---- One job ----

  /** With one job and a build that stops at the first error, no started task builds on a failed one. */
  ghost predicate NoFailureYet(c: Config, s: State) {
    c.numjobs == 1 && c.keep == 0 && !s.stop ==>
      forall x :: StatusOf(s, x) == NotRun || StatusOf(s, x) == Success || StatusOf(s, x) == Skipped ||
          StatusOf(s, x) == Preset
  }

  lemma StepKeepsNoFailure(c: Config, s: State, a: Action)
    requires Flight(c, s) && ExamineInv(c, s) && NoFailureYet(c, s) && Enabled(c, s, a)
    ensures NoFailureYet(c, Apply(c, s, a))
  {
    EffectOnHasrun(c, s, a);
    assert a.Finish? ==> c.numjobs != 1;
    hide Flight, Waits, Apply;
    if c.numjobs == 1 && c.keep == 0 && a.Examined? {
      assert !s.stop;
      OneJobOutcome(c, s, a);
    } else if s.stop {
      StopStays(c, s, a);
    } else if c.numjobs == 1 && c.keep == 0 {
      forall x ensures StatusOf(Apply(c, s, a), x) == StatusOf(s, x) {}
    }
  }

  lemma OneJobOutcome(c: Config, s: State, a: Action)
    requires Enabled(c, s, a) && a.Examined? && s.pc.Examine? && c.numjobs == 1 && c.keep == 0 && !s.stop
    ensures
      var s', t := Apply(c, s, a), s.pc.task;
      s'.stop || StatusOf(s', t) == StatusOf(s, t) || StatusOf(s', t) == Success || StatusOf(s', t) == Skipped
  {
    hide Waits;
  }

  lemma {:induction false} RunKeepsNoFailure(c: Config, s: State, actions: seq<Action>, s': State)
    requires Unique(c) && Inv(c, s) && ExamineInv(c, s) && NoFailureYet(c, s) && Run(c, s, actions, s')
    ensures NoFailureYet(c, s') && ExamineInv(c, s')
    decreases |actions|
  {
    if actions != [] {
      StepKeepsNoFailure(c, s, actions[0]);
      StepKeepsExamineInv(c, s, actions[0]);
      StepKeepsInv(c, s, actions[0]);
      RunKeepsNoFailure(c, Apply(c, s, actions[0]), actions[1..], s');
    }
  }

  ghost predicate ExamineInv(c: Config, s: State) {
    c.numjobs == 1 && s.pc.Examine? ==> !s.stop
  }

  lemma StepKeepsExamineInv(c: Config, s: State, a: Action)
    requires Inv(c, s) && ExamineInv(c, s) && Enabled(c, s, a)
    ensures ExamineInv(c, Apply(c, s, a))
  {
    hide Places, Accounted, Marker;
  }

  lemma OneJobBuildsOnSuccess(c: Config, s: State, a: Action, t: Task, d: Task)
    requires Unique(c) && Reachable(c, s) && Enabled(c, s, a) && Starts(s, a, t)
    requires c.numjobs == 1 && c.keep == 0
    requires d in RunAfter(Apply(c, s, a), t)
    ensures StatusOf(s, d) == Success || StatusOf(s, d) == Skipped || StatusOf(s, d) == Preset
  {
    ReachableInv(c, s);
    var s0, actions :| Init(c, s0) && Run(c, s0, actions, s);
    InitInv(c, s0);
    RunKeepsNoFailure(c, s0, actions, s);
    RunAfterStart(c, s, a, t, d);
  }
}
