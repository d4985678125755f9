/**
 How runs of the build scheduler end, with any number of jobs: every run is finite, and one that was not
 stopped has run every task.
 */
module SchedulerEnds {
  import opened Scheduler
  import opened SchedulerTheorems

  // ---- Every step lowers a rank ----

  datatype Triple = Triple(first: nat, second: nat, third: nat)

  /** Work that is still to come, where the tasks in flight are, and where the producer is. */
  datatype Rank = Rank(work: Triple, flight: Triple, loop: Triple)

  predicate Less(x: Triple, y: Triple) {
    || x.first < y.first
    || (x.first == y.first && x.second < y.second)
    || (x.first == y.first && x.second == y.second && x.third < y.third)
  }

  predicate Lower(x: Rank, y: Rank) {
    || Less(x.work, y.work)
    || (x.work == y.work && Less(x.flight, y.flight))
    || (x.work == y.work && x.flight == y.flight && Less(x.loop, y.loop))
  }

  function Place(pc: Pc): nat {
    match pc
    case Examine(_) => 7
    case Loop => 6
    case Refill => 5
    case AfterGet => 4
    case Fill => 3
    case Next => 2
    case Drain => 1
    case _ => 0
  }

  function Level(phase: Phase): nat {
    match phase
    case Got => 4
    case Running => 3
    case Recorded => 2
    case Reported => 1
  }

  /** The steps that the workers have to do for the tasks that they hold. */
  ghost function Steps(busy: map<Task, Phase>): set<(Task, nat)> {
    set x, j: nat | x in busy && j < Level(busy[x]) :: (x, j)
  }

  ghost function Work(c: Config, s: State): Triple {
    Triple(if s.nextGroup <= |c.groups| then |c.groups| - s.nextGroup else 0, |c.more.Keys - s.collected|, |Waiting(s)|)
  }

  ghost function AtWork(s: State): Triple {
    Triple(|s.ready|, |Steps(s.busy)|, |s.out|)
  }

  function InLoop(s: State): Triple {
    Triple(if s.deadlock == At(s.processed) then 0 else 1,
           |s.outstanding| + (if s.pc == AfterGet then |s.frozen| else 0), Place(s.pc))
  }

  ghost function RankOf(c: Config, s: State): Rank {
    Rank(Work(c, s), AtWork(s), InLoop(s))
  }

  lemma FewerMembers<T>(a: set<T>, b: set<T>, x: T)
    requires a <= b && x in b && x !in a
    ensures |a| < |b|
  {
    assert b == a + (b - a);
    assert x in b - a;
  }

  lemma StepDone(busy: map<Task, Phase>, busy': map<Task, Phase>, t: Task)
    requires t in busy && forall x :: x != t && x in busy' ==> x in busy && busy'[x] == busy[x]
    requires t in busy' ==> Level(busy'[t]) < Level(busy[t])
    ensures |Steps(busy')| < |Steps(busy)|
  {
    FewerMembers(Steps(busy'), Steps(busy), (t, Level(busy[t]) - 1));
  }

  lemma FlightLower(c: Config, s: State, s': State)
    requires Work(c, s') == Work(c, s) && Less(AtWork(s'), AtWork(s))
    ensures Lower(RankOf(c, s'), RankOf(c, s))
  {
    hide Work, AtWork, InLoop, Less;
  }

  lemma WorkerLowers(c: Config, s: State, a: Action)
    requires Enabled(c, s, a) && ByWorker(a)
    ensures Lower(RankOf(c, ApplyWorker(c, s, a)), RankOf(c, s))
  {
    WorkerEffects(c, s, a);
    assert Work(c, ApplyWorker(c, s, a)) == Work(c, s);
    WorkerStep(c, s, a);
    FlightLower(c, s, ApplyWorker(c, s, a));
  }

  lemma WorkerStep(c: Config, s: State, a: Action)
    requires Enabled(c, s, a) && ByWorker(a)
    ensures Less(AtWork(ApplyWorker(c, s, a)), AtWork(s))
  {
    var s' := ApplyWorker(c, s, a);
    hide Steps;
    match a {
      case Take => assert s'.ready == s.ready[1..];
      case Check(t) => StepDone(s.busy, s'.busy, t);
      case Finish(t, _) => StepDone(s.busy, s'.busy, t);
      case Report(t) => StepDone(s.busy, s'.busy, t);
      case Put(t) => StepDone(s.busy, s'.busy, t);
    }
  }

  /** Collecting t, once, uses up one of the tasks that have further tasks, or brings none. */
  lemma Collected(c: Config, s: State, s': State, t: Task)
    requires s'.collected == s.collected + {t} && t !in s.collected
    ensures |c.more.Keys - s'.collected| < |c.more.Keys - s.collected|
            || (More(c, t) == [] && |c.more.Keys - s'.collected| == |c.more.Keys - s.collected|)
  {
    if t in c.more {
      FewerMembers(c.more.Keys - s'.collected, c.more.Keys - s.collected, t);
    } else {
      assert c.more.Keys - s'.collected == c.more.Keys - s.collected;
    }
  }

  /** Taking a result: its further tasks come in, or there is one result less. */
  lemma GetLowers(c: Config, s: State, pc: Pc)
    requires Places(c, s) && s.out != [] && s.count > 0 && !s.pc.Examine? && !pc.Examine?
    ensures Lower(RankOf(c, GetOut(c, s).(pc := pc)), RankOf(c, s))
  {
    hide *;
    GetFields(c, s, pc);
    NotCollected(c, s, s.out[0]);
    if s.stop {
      ResultGone(c, s, GetOut(c, s).(pc := pc));
    } else {
      ResultCollected(c, s, GetOut(c, s).(pc := pc), s.out[0]);
    }
  }

  lemma ResultCollected(c: Config, s: State, s': State, t: Task)
    requires Waiting(s') == Waiting(s) + multiset(More(c, t)) && s'.nextGroup == s.nextGroup
    requires s'.collected == s.collected + {t} && t !in s.collected
    requires s'.ready == s.ready && s'.busy == s.busy && |s'.out| < |s.out|
    ensures Lower(RankOf(c, s'), RankOf(c, s))
  {
    hide *;
    Collected(c, s, s', t);
    if |c.more.Keys - s'.collected| < |c.more.Keys - s.collected| {
      FewerUnseen(c, s, s');
    } else {
      assert multiset(More(c, t)) == multiset{};
      ResultGone(c, s, s');
    }
  }

  lemma NotCollected(c: Config, s: State, t: Task)
    requires Places(c, s) && (t in s.out || s.pc == Examine(t))
    ensures t !in s.collected
  {
    assert Placed(c, s, t);
    assert t in s.out ==> t in InFlight(s);
    assert s.pc == Examine(t) ==> t in Waiting(s);
    hide InFlight, Waiting, Released;
    assert t in All(s);
  }

  lemma FewerUnseen(c: Config, s: State, s': State)
    requires s'.nextGroup == s.nextGroup && |c.more.Keys - s'.collected| < |c.more.Keys - s.collected|
    ensures Lower(RankOf(c, s'), RankOf(c, s))
  {
    hide Waiting;
    WorkLower(c, s, s');
  }

  lemma GetFields(c: Config, s: State, pc: Pc)
    requires s.out != [] && s.count > 0 && !s.pc.Examine? && !pc.Examine?
    ensures
      var s', t := GetOut(c, s).(pc := pc), s.out[0];
      && s'.ready == s.ready && s'.busy == s.busy && |s'.out| < |s.out| && s'.nextGroup == s.nextGroup
      && s'.collected == (if s.stop then s.collected else s.collected + {t})
      && Waiting(s') == Waiting(s) + (if s.stop then multiset{} else multiset(More(c, t)))
  {
    CollectLists(c, s);
    assert Waiting(GetOut(c, s).(pc := pc)) == Waiting(GetOut(c, s));
  }

  lemma ResultGone(c: Config, s: State, s': State)
    requires Waiting(s') == Waiting(s) && s'.nextGroup == s.nextGroup
    requires |c.more.Keys - s'.collected| == |c.more.Keys - s.collected|
    requires s'.ready == s.ready && s'.busy == s.busy && |s'.out| < |s.out|
    ensures Lower(RankOf(c, s'), RankOf(c, s))
  {
    hide Waiting, Steps;
    FlightLower(c, s, s');
  }

  lemma ProducerLowers(c: Config, s: State, a: Action)
    requires Places(c, s) && NextInv(c, s) && Enabled(c, s, a) && !ByWorker(a) && !a.Examined?
    ensures Lower(RankOf(c, ApplyProducer(c, s, a)), RankOf(c, s))
  {
    hide RankOf, Lower, Places, GetOut, Pull, Thaw, Waits;
    match a {
      case RefillGet => CollectFrame(c, s); GetLowers(c, s, Refill);
      case FillGet => GetLowers(c, s, AfterGet);
      case DrainGet => CollectFrame(c, s); GetLowers(c, s, Drain);
      case NextRan => FirstLeaves(c, s, Loop);
      case NextStop => FirstLeaves(c, s, Drain);
      case NextExamine => FirstExamined(c, s);
      case FillPull => PullLowers(c, s);
      case GetPull => PullLowers(c, s);
      case FillThaw => ThawLowers(c, s);
      case GetThaw => GetThawLowers(c, s);
      case TestStop => PcLowers(c, s, if s.stop then Drain else Refill);
      case RefillEnd => PcLowers(c, s, Fill);
      case FillEnd => PcLowers(c, s, Next);
      case FillDeadlock => PcLowers(c, s, Deadlocked);
      case GetAgain => PcLowers(c, s, Fill);
      case NextNone => PcLowers(c, s, Drain);
      case DrainEnd => PcLowers(c, s, Done);
    }
  }

  lemma FirstLeaves(c: Config, s: State, pc: Pc)
    requires s.outstanding != [] && s.pc == Next && !pc.Examine?
    ensures forall p, d ::
      Lower(RankOf(c, s.(outstanding := s.outstanding[1..], processed := p, deadlock := d, pc := pc)), RankOf(c, s))
  {
    PopFront(s.outstanding);
    forall p, d
      ensures Lower(RankOf(c, s.(outstanding := s.outstanding[1..], processed := p, deadlock := d, pc := pc)),
              RankOf(c, s))
    {
      var s' := s.(outstanding := s.outstanding[1..], processed := p, deadlock := d, pc := pc);
      assert Waiting(s) == Waiting(s') + multiset{s.outstanding[0]};
    }
  }

  lemma FirstExamined(c: Config, s: State)
    requires s.outstanding != [] && s.pc == Next
    ensures Lower(RankOf(c, s.(outstanding := s.outstanding[1..], pc := Examine(s.outstanding[0]))), RankOf(c, s))
  {
    PopFront(s.outstanding);
    assert Waiting(s.(outstanding := s.outstanding[1..], pc := Examine(s.outstanding[0]))) == Waiting(s);
  }

  lemma PullLowers(c: Config, s: State)
    requires (s.pc == Fill || s.pc == AfterGet) && s.frozen == []
    ensures Lower(RankOf(c, Pull(c, s)), RankOf(c, s))
  {
    if s.nextGroup >= |c.groups| { assert Waiting(Pull(c, s)) == Waiting(s); }
  }

  lemma LoopLower(c: Config, s: State, s': State)
    requires Work(c, s') == Work(c, s) && AtWork(s') == AtWork(s) && Less(InLoop(s'), InLoop(s))
    ensures Lower(RankOf(c, s'), RankOf(c, s))
  {
    hide Work, AtWork, InLoop, Less;
  }

  lemma PcLowers(c: Config, s: State, pc: Pc)
    requires Place(pc) < Place(s.pc) && !s.pc.Examine? && pc != AfterGet && (s.pc == AfterGet ==> s.frozen == [])
    ensures Lower(RankOf(c, s.(pc := pc)), RankOf(c, s))
  {
    assert Waiting(s.(pc := pc)) == Waiting(s);
    LoopLower(c, s, s.(pc := pc));
  }

  lemma ThawLowers(c: Config, s: State)
    requires s.pc == Fill && s.deadlock != At(s.processed)
    ensures Lower(RankOf(c, Thaw(s.(deadlock := At(s.processed)))), RankOf(c, s))
  {
    var s' := Thaw(s.(deadlock := At(s.processed)));
    assert Waiting(s') == Waiting(s);
    LoopLower(c, s, s');
  }

  lemma GetThawLowers(c: Config, s: State)
    requires s.pc == AfterGet
    ensures Lower(RankOf(c, Thaw(s)), RankOf(c, s))
  {
    assert Waiting(Thaw(s)) == Waiting(s);
    LoopLower(c, s, Thaw(s));
  }

  lemma WorkLower(c: Config, s: State, s': State)
    requires Less(Work(c, s'), Work(c, s))
    ensures Lower(RankOf(c, s'), RankOf(c, s))
  {
    hide Work, AtWork, InLoop, Less;
  }

  lemma ExaminedLowers(c: Config, s: State, t: Task, outcome: Outcome)
    requires s.pc == Examine(t) && t !in s.collected
    ensures Lower(RankOf(c, ApplyOutcome(c, s, t, outcome)), RankOf(c, s))
  {
    var s' := ApplyOutcome(c, s, t, outcome);
    OutcomeFields(c, s, t, outcome);
    hide ApplyOutcome;
    match outcome {
      case AskLater(_) => PostponedLower(c, s, s', t);
      case SkipMe => SkipMultisets(c, s, s', t); SkippedLower(c, s, s', t);
      case _ => OneLess(c, s, s', t);
    }
  }

  lemma PostponedLower(c: Config, s: State, s': State, t: Task)
    requires s.pc == Examine(t) && s' == s.(frozen := s'.frozen, pc := Loop)
    requires s'.frozen == [t] + s.frozen || s'.frozen == s.frozen + [t]
    ensures Lower(RankOf(c, s'), RankOf(c, s))
  {
    assert Waiting(s') == Waiting(s);
    LoopLower(c, s, s');
  }

  lemma OneLess(c: Config, s: State, s': State, t: Task)
    requires s.pc == Examine(t) && s'.pc == Loop && s'.outstanding == s.outstanding && s'.frozen == s.frozen
    requires s'.nextGroup == s.nextGroup && s'.collected == s.collected
    ensures Lower(RankOf(c, s'), RankOf(c, s))
  {
    assert Waiting(s') + multiset{t} == Waiting(s);
    hide Waiting;
    assert |Waiting(s') + multiset{t}| == |Waiting(s')| + 1;
    WorkLower(c, s, s');
  }

  lemma SkippedLower(c: Config, s: State, s': State, t: Task)
    requires Waiting(s') + multiset{t} == Waiting(s) + multiset(More(c, t)) && s'.nextGroup == s.nextGroup
    requires s'.collected == s.collected + {t} && t !in s.collected
    ensures Lower(RankOf(c, s'), RankOf(c, s))
  {
    hide Waiting;
    Collected(c, s, s', t);
    assert |Waiting(s') + multiset{t}| == |Waiting(s')| + 1;
    assert More(c, t) == [] ==> multiset(More(c, t)) == multiset{};
    WorkLower(c, s, s');
  }

  lemma OutcomeFields(c: Config, s: State, t: Task, outcome: Outcome)
    ensures
      var s' := ApplyOutcome(c, s, t, outcome);
      && s'.pc == Loop && s'.nextGroup == s.nextGroup
      && s'.outstanding == (if outcome.SkipMe? then s.outstanding + More(c, t) else s.outstanding)
      && s'.collected == (if outcome.SkipMe? then s.collected + {t} else s.collected)
      && (outcome.AskLater? ==> s' == s.(frozen := s'.frozen, pc := Loop))
      && (outcome.AskLater? ==> s'.frozen == [t] + s.frozen || s'.frozen == s.frozen + [t])
      && (!outcome.AskLater? ==> s'.frozen == s.frozen)
  {
    match outcome {
      case AskLater(_) =>
      case SkipMe =>
      case RunMe(_) => assert c.numjobs == 1 || c.numjobs != 1;
      case Raises =>
    }
  }

  /** While nothing is left to look at, nothing is in flight or frozen, and no group is left. */
  ghost predicate NextInv(c: Config, s: State) {
    s.pc == Next && s.outstanding == [] ==>
      s.count == 0 && s.frozen == [] && (NoEmptyGroup(c) ==> s.nextGroup >= |c.groups|)
  }

  lemma StepKeepsNextInv(c: Config, s: State, a: Action)
    requires NextInv(c, s) && Enabled(c, s, a)
    ensures NextInv(c, Apply(c, s, a))
  {
    if ByWorker(a) {
      WorkerEffects(c, s, a);
    } else if a.Examined? {
      ExaminedAtExamine(c, s, a);
      OutcomeEffects(c, Discover(s, s.pc.task, a.extra), s.pc.task, a.outcome);
    } else {
      ProducerKeepsNextInv(c, s, a);
    }
    hide Enabled, ApplyWorker, ApplyOutcome, ApplyProducer;
  }

  lemma ProducerKeepsNextInv(c: Config, s: State, a: Action)
    requires NextInv(c, s) && Enabled(c, s, a) && !ByWorker(a) && !a.Examined?
    ensures NextInv(c, ApplyProducer(c, s, a))
  {
    hide Waits;
    if a.FillPull? || a.GetPull? {
      assert s.nextGroup < |c.groups| && NoEmptyGroup(c) ==> c.groups[s.nextGroup] != [];
    }
  }

  /** No step leads back to where the scheduler has been. */
  lemma StepLowers(c: Config, s: State, a: Action)
    requires Inv(c, s) && NextInv(c, s) && Enabled(c, s, a)
    ensures Lower(RankOf(c, Apply(c, s, a)), RankOf(c, s))
  {
    hide RankOf, Flight, Accounted, Marker, NextInv, ApplyOutcome, ApplyProducer, ApplyWorker;
    if ByWorker(a) {
      WorkerLowers(c, s, a);
    } else if a.Examined? {
      ExaminedAtExamine(c, s, a);
      SameRank(c, s, s.pc.task, a.extra);
      NotCollected(c, s, s.pc.task);
      ExaminedLowers(c, Discover(s, s.pc.task, a.extra), s.pc.task, a.outcome);
    } else {
      ProducerLowers(c, s, a);
    }
  }

  lemma SameRank(c: Config, s: State, t: Task, extra: set<Task>)
    ensures RankOf(c, Discover(s, t, extra)) == RankOf(c, s)
  {
    assert Waiting(Discover(s, t, extra)) == Waiting(s);
  }

  lemma {:induction false} RunKeepsNextInv(c: Config, s: State, actions: seq<Action>, s': State)
    requires NextInv(c, s) && Run(c, s, actions, s')
    ensures NextInv(c, s')
    decreases |actions|
  {
    if actions != [] {
      StepKeepsNextInv(c, s, actions[0]);
      RunKeepsNextInv(c, Apply(c, s, actions[0]), actions[1..], s');
    }
  }

  // ---- Getting further ----

  /** s' is reached, and nearer to the end than s. */
  ghost predicate Further(c: Config, s: State, s': State) {
    Reachable(c, s') && Lower(RankOf(c, s'), RankOf(c, s))
  }

  ghost predicate Onward(c: Config, s: State, s': State) {
    Further(c, s, s') || (s' == s && Reachable(c, s))
  }

  lemma Goes(c: Config, s: State, a: Action) returns (s': State)
    requires Unique(c) && Reachable(c, s) && Enabled(c, s, a)
    ensures s' == Apply(c, s, a) && Further(c, s, s')
  {
    ReachableInv(c, s);
    var s0, actions :| Init(c, s0) && Run(c, s0, actions, s);
    RunKeepsNextInv(c, s0, actions, s);
    hide Unique, Reachable, Inv, NextInv, RankOf, Enabled, Apply, Init, Run;
    StepLowers(c, s, a);
    s' := Reach(c, s, a);
  }

  lemma OnwardFurther(c: Config, s: State, s1: State, s2: State)
    requires Onward(c, s, s1) && Further(c, s1, s2)
    ensures Further(c, s, s2)
  {
    hide RankOf, Reachable;
  }

  // ---- Every run is finite ----

  ghost predicate StepAt(c: Config, states: nat -> State, actions: nat -> Action, i: nat) {
    Enabled(c, states(i), actions(i)) && states(i + 1) == Apply(c, states(i), actions(i))
  }

  lemma {:induction false} Descend(c: Config, states: nat -> State, actions: nat -> Action, i: nat)
    requires Unique(c) && Inv(c, states(i)) && NextInv(c, states(i)) && forall k :: StepAt(c, states, actions, k)
    ensures false
    decreases RankOf(c, states(i)).work.first, RankOf(c, states(i)).work.second, RankOf(c, states(i)).work.third,
              RankOf(c, states(i)).flight.first, RankOf(c, states(i)).flight.second, RankOf(c, states(i)).flight.third,
              RankOf(c, states(i)).loop.first, RankOf(c, states(i)).loop.second, RankOf(c, states(i)).loop.third
  {
    hide Unique, Inv, NextInv, Enabled, Apply, RankOf;
    assert StepAt(c, states, actions, i);
    StepKeepsInv(c, states(i), actions(i));
    StepKeepsNextInv(c, states(i), actions(i));
    StepLowers(c, states(i), actions(i));
    Descend(c, states, actions, i + 1);
  }

  /** No run goes on for ever, whatever the workers do and however postponed tasks come back: a sequence of
      states and actions from an initial state has a place where it is no step of the scheduler. */
  lemma NoEndlessRun(c: Config, states: nat -> State, actions: nat -> Action)
    requires Unique(c) && Init(c, states(0))
    ensures exists i :: !StepAt(c, states, actions, i)
  {
    InitInv(c, states(0));
    if forall i :: StepAt(c, states, actions, i) {
      Descend(c, states, actions, 0);
    }
  }

  // ---- What is done at the end ----

  /** After the loop of a build that was not stopped nothing is left over. */
  ghost predicate EndInv(c: Config, s: State) {
    (s.pc == Drain || s.pc == Done) && !s.stop ==>
      && s.count == 0 && s.outstanding == [] && s.frozen == []
      && (NoEmptyGroup(c) ==> s.nextGroup >= |c.groups|)
      && forall x :: Released(c, s, x) ==> Ran(s, x)
  }

  lemma LastOne(c: Config, s: State)
    requires Inv(c, s) && NextInv(c, s) && s.pc == Next && s.outstanding == [] && !s.stop
    ensures EndInv(c, s.(pc := Drain))
  {
    hide Released, Marker;
    assert InFlight(s) == multiset{};
    assert All(s) == multiset{};
    forall x ensures Released(c, s.(pc := Drain), x) <==> Released(c, s, x) {
      SameReleased(c, s, s.(pc := Drain), x);
    }
  }

  lemma SameReleased(c: Config, s: State, s': State, x: Task)
    requires s'.nextGroup == s.nextGroup && s'.collected == s.collected
    ensures Released(c, s', x) <==> Released(c, s, x)
  {}

  lemma NoWorkerLeft(c: Config, s: State, a: Action)
    requires Places(c, s) && s.count == 0 && Enabled(c, s, a)
    ensures !ByWorker(a)
  {
    hide Placed;
    EmptyHanded(s);
  }

  lemma EmptyHanded(s: State)
    requires |InFlight(s)| == 0
    ensures s.ready == [] && s.busy == map[]
  {
    assert |multiset(s.busy.Keys)| == |s.busy.Keys|;
    assert |InFlight(s)| == |s.ready| + |s.busy.Keys| + |s.out|;
    assert s.busy.Keys == {};
  }

  lemma StepKeepsEndInv(c: Config, s: State, a: Action)
    requires Inv(c, s) && NextInv(c, s) && EndInv(c, s) && Enabled(c, s, a)
    ensures EndInv(c, Apply(c, s, a))
  {
    var s' := Apply(c, s, a);
    if s'.pc == Drain || s'.pc == Done {
      if ByWorker(a) {
        hide Released, Accounted, Marker, Flight, ApplyWorker;
        WorkerEffects(c, s, a);
        if !s.stop { NoWorkerLeft(c, s, a); }
      } else if a.Examined? {
        hide Released, Inv, ApplyOutcome;
        ExaminedAtExamine(c, s, a);
        OutcomeEffects(c, Discover(s, s.pc.task, a.extra), s.pc.task, a.outcome);
      } else {
        ProducerKeepsEndInv(c, s, a);
      }
    }
  }

  lemma ProducerKeepsEndInv(c: Config, s: State, a: Action)
    requires Inv(c, s) && NextInv(c, s) && EndInv(c, s) && Enabled(c, s, a) && !ByWorker(a) && !a.Examined?
    ensures EndInv(c, ApplyProducer(c, s, a))
  {
    hide Inv, Released, NextInv;
    if a.NextNone? && s.count == 0 && !s.stop {
      LastOne(c, s);
    }
    if a.DrainEnd? && !s.stop {
      forall x ensures Released(c, s.(pc := Done), x) <==> Released(c, s, x) {
        SameReleased(c, s, s.(pc := Done), x);
      }
    }
  }

  lemma {:induction false} RunKeepsEndInv(c: Config, s: State, actions: seq<Action>, s': State)
    requires Unique(c) && Inv(c, s) && NextInv(c, s) && EndInv(c, s) && Run(c, s, actions, s')
    ensures Inv(c, s') && EndInv(c, s')
    decreases |actions|
  {
    hide Unique, Inv, NextInv, EndInv, Enabled, Apply;
    if actions != [] {
      StepKeepsInv(c, s, actions[0]);
      StepKeepsNextInv(c, s, actions[0]);
      StepKeepsEndInv(c, s, actions[0]);
      RunKeepsEndInv(c, Apply(c, s, actions[0]), actions[1..], s');
    }
  }

  /** When the producer has left its loop, the build was stopped, or nothing is in flight, postponed or
      outstanding, and every task has run. */
  lemma NothingLeftBehind(c: Config, s: State)
    requires Unique(c) && Reachable(c, s) && (s.pc == Drain || s.pc == Done)
    ensures s.stop || (s.count == 0 && s.outstanding == [] && s.frozen == [])
    ensures !s.stop && NoEmptyGroup(c) ==> AllDone(c, s)
  {
    var s0, actions :| Init(c, s0) && Run(c, s0, actions, s);
    InitInv(c, s0);
    RunKeepsEndInv(c, s0, actions, s);
  }

  // ---- Further tasks ----

  /** What was handed over is still in flight or has been collected, unless the build was stopped. */
  ghost predicate StartedInv(s: State) {
    !s.stop ==> forall t :: t in s.started ==> t in s.ready || t in s.busy || t in s.out || t in s.collected
  }

  lemma WorkerKeepsStarted(c: Config, s: State, a: Action)
    requires StartedInv(s) && Enabled(c, s, a) && ByWorker(a)
    ensures StartedInv(ApplyWorker(c, s, a))
  {
    WorkerEffects(c, s, a);
    var s' := ApplyWorker(c, s, a);
    if !s'.stop {
      forall t | t in s.started ensures t in s'.ready || t in s'.busy || t in s'.out || t in s'.collected {
        if t !in s.collected { StaysInHand(c, s, a, t); }
      }
    }
  }

  lemma StaysInHand(c: Config, s: State, a: Action, t: Task)
    requires Enabled(c, s, a) && ByWorker(a) && (t in s.ready || t in s.busy || t in s.out)
    ensures var s' := ApplyWorker(c, s, a); t in s'.ready || t in s'.busy || t in s'.out
  {
    match a {
      case Take => assert s.ready == [s.ready[0]] + s.ready[1..];
      case Check(u) => assert u in s.out + [u];
      case Finish(u, _) =>
      case Report(u) =>
      case Put(u) => assert u in s.out + [u];
    }
  }

  lemma OutcomeOut(c: Config, s: State, t: Task, outcome: Outcome)
    ensures ApplyOutcome(c, s, t, outcome).out == if outcome.RunMe? && c.numjobs == 1 then s.out + [t] else s.out
  {
    match outcome {
      case AskLater(_) =>
      case SkipMe =>
      case RunMe(result) => assert c.numjobs == 1 || c.numjobs != 1;
      case Raises =>
    }
  }

  lemma ProducerKeepsStarted(c: Config, s: State, a: Action)
    requires StartedInv(s) && Enabled(c, s, a) && !ByWorker(a) && !a.Examined?
    ensures StartedInv(ApplyProducer(c, s, a))
  {
    ProducerEffects(c, s, a);
    if a.RefillGet? || a.FillGet? || a.DrainGet? {
      CollectFrame(c, s);
      assert s.out == [s.out[0]] + s.out[1..];
      assert ApplyProducer(c, s, a).out == s.out[1..];
    } else {
      assert ApplyProducer(c, s, a).out == s.out;
    }
    hide Enabled, Waits;
  }

  lemma StepKeepsStarted(c: Config, s: State, a: Action)
    requires StartedInv(s) && Enabled(c, s, a)
    ensures StartedInv(Apply(c, s, a))
  {
    hide Enabled, ApplyWorker, ApplyOutcome, ApplyProducer;
    if ByWorker(a) {
      WorkerKeepsStarted(c, s, a);
    } else if a.Examined? {
      ExaminedAtExamine(c, s, a);
      var s1, t := Discover(s, s.pc.task, a.extra), s.pc.task;
      OutcomeEffects(c, s1, t, a.outcome);
      OutcomeQueues(c, s1, t, a.outcome);
      OutcomeOut(c, s1, t, a.outcome);
    } else {
      ProducerKeepsStarted(c, s, a);
    }
  }

  lemma {:induction false} RunKeepsStarted(c: Config, s: State, actions: seq<Action>, s': State)
    requires StartedInv(s) && Run(c, s, actions, s')
    ensures StartedInv(s')
    decreases |actions|
  {
    if actions != [] {
      StepKeepsStarted(c, s, actions[0]);
      RunKeepsStarted(c, Apply(c, s, actions[0]), actions[1..], s');
    }
  }

  /** At the end of a build that was not stopped the further tasks of every task that was handed over have run
      too. */
  lemma FurtherTasksRun(c: Config, s: State, t: Task, x: Task)
    requires Unique(c) && Reachable(c, s) && (s.pc == Drain || s.pc == Done) && !s.stop
    requires t in s.started && t in c.more && x in c.more[t]
    ensures Ran(s, x)
  {
    var s0, actions :| Init(c, s0) && Run(c, s0, actions, s);
    InitInv(c, s0);
    RunKeepsEndInv(c, s0, actions, s);
    RunKeepsStarted(c, s0, actions, s);
    hide Unique, Reachable, Accounted, Marker, Init, Run, Placed, Flight, InFlight, Released;
    assert s.count == 0 && s.count == |InFlight(s)|;
    EmptyHanded(s);
    NothingOut(s);
    assert t in s.collected;
    ReleasedBy(c, s, t, x);
  }

  lemma ReleasedBy(c: Config, s: State, t: Task, x: Task)
    requires t in s.collected && t in c.more && x in c.more[t]
    ensures Released(c, s, x)
  {
    assert x in More(c, t);
  }

  lemma NothingOut(s: State)
    requires |InFlight(s)| == 0
    ensures s.out == []
  {
    assert |InFlight(s)| == |s.ready| + |multiset(s.busy.Keys)| + |s.out|;
  }
}
