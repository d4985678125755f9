/**
 The scheduler with a single job: the producer runs every task itself.  Its loops terminate, and
 what it does is one of the runs of the state machine in `Scheduler`.
 */
module OneJob {
  import opened Scheduler
  import opened SchedulerTheorems
  import opened SchedulerEnds

  // ---- The loops ----

  class Parallel {
    const c: Config
    /** Tasks neither fail nor raise exceptions. */
    const reliable: bool
    var outstanding: seq<Task>
    var frozen: seq<Task>
    var out: seq<Task>
    var count: nat
    var processed: nat
    var deadlock: Deadlock
    var stop: bool
    var nextGroup: nat
    var errors: seq<Task>
    var hasrun: map<Task, Status>
    var runAfter: map<Task, set<Task>>
    ghost var started: set<Task>
    ghost var dropped: set<Task>
    ghost var collected: set<Task>

    /** The state of the machine when the producer is at pc; there are no workers. */
    ghost function Here(pc: Pc): State
      reads this
    {
      State(pc, outstanding, frozen, [], map[], out, count, processed, deadlock, stop, nextGroup, errors,
            hasrun, runAfter, started, dropped, collected)
    }

    constructor (c: Config, reliable: bool, hasrun: map<Task, Status>, runAfter: map<Task, set<Task>>)
      requires forall t :: t in hasrun ==> hasrun[t] == NotRun || hasrun[t] == Preset
      requires forall t :: t in runAfter ==> runAfter[t] <= Deps(c, t)
      ensures this.c == c && this.reliable == reliable && Init(c, Here(Loop))
    {
      this.c, this.reliable := c, reliable;
      outstanding, frozen, out, count, processed, deadlock, stop := [], [], [], 0, 1, Unset, false;
      nextGroup, errors := 0, [];
      this.hasrun, this.runAfter := hasrun, runAfter;
      started, dropped, collected := {}, {}, {};
    }

    /** Takes one returned task off the queue; its further tasks join the outstanding ones. */
    method GetOut(ghost pc: Pc)
      requires out != [] && count > 0
      modifies this`outstanding, this`out, this`count, this`collected
      ensures Here(pc) == Scheduler.GetOut(c, old(Here(pc)))
      ensures out == old(out)[1..] && count == old(count) - 1
      ensures !stop && old(out)[0] in c.more ==> outstanding == old(outstanding) + c.more[old(out)[0]]
    {
      var t := out[0];
      out := out[1..];
      if !stop {
        outstanding := outstanding + More(c, t);
        collected := collected + {t};
      }
      count := count - 1;
    }

    method ThawFrozen(ghost pc: Pc)
      modifies this`outstanding, this`frozen
      ensures Here(Fill) == Thaw(old(Here(pc)))
    {
      outstanding, frozen := outstanding + frozen, [];
    }

    /** `self.outstanding.extend(self.biter.next())` */
    method PullNext(ghost pc: Pc)
      modifies this`outstanding, this`nextGroup
      ensures Here(Next) == Pull(c, old(Here(pc)))
    {
      if nextGroup < |c.groups| {
        outstanding, nextGroup := outstanding + c.groups[nextGroup], nextGroup + 1;
      }
    }

    /** One round of `RefillTaskList`'s main loop; `more` says whether the loop goes on. */
    method RefillRound() returns (deadlocked: bool, more: bool)
      requires c.numjobs == 1 && Unique(c) && Reachable(c, Here(Fill)) && outstanding == []
      modifies this`outstanding, this`frozen, this`out, this`count, this`collected, this`deadlock, this`nextGroup
      ensures deadlocked ==> Reachable(c, Here(Deadlocked)) && !more
      ensures !deadlocked ==> Further(c, old(Here(Fill)), Here(if more then Fill else Next))
      ensures more ==> outstanding != [] || count < old(count)
    {
      hide Reachable, Further, Onward, Unique;
      deadlocked, more := false, true;
      if count > 0 {
        more := CollectRound();
      } else if frozen != [] {
        if deadlock == At(processed) {
          ReachDeadlock(c, Here(Fill));
          return true, false;
        }
        ThawStep(c, Here(Fill));
        deadlock := At(processed);
        ThawFrozen(Fill);
      } else {
        PullStep(c, Here(Fill));
        PullNext(Fill);
        more := false;
      }
    }

    /** A round that starts by collecting a result. */
    method CollectRound() returns (more: bool)
      requires c.numjobs == 1 && Unique(c) && Reachable(c, Here(Fill)) && outstanding == [] && count > 0
      modifies this`outstanding, this`frozen, this`out, this`count, this`collected, this`nextGroup
      ensures Further(c, old(Here(Fill)), Here(if more then Fill else Next))
      ensures more ==> count < old(count)
    {
      more := true;
      ghost var s := Here(Fill);
      CollectStep(c, s);
      CollectFrame(c, s);
      hide Reachable, Further, Unique;
      GetOut(Fill);
      ghost var s1 := Here(AfterGet);
      assert s1 == Scheduler.GetOut(c, s).(pc := AfterGet);
      hide Scheduler.GetOut;
      if frozen != [] {
        ThawFrozen(AfterGet);
      } else if count == 0 {
        PullNext(AfterGet);
        more := false;
      }
    }

    /** Fetches work: collects results, thaws postponed tasks, or pulls the next group. */
    method RefillTaskList() returns (deadlocked: bool)
      requires c.numjobs == 1 && Unique(c) && Reachable(c, Here(Refill))
      modifies this`outstanding, this`frozen, this`out, this`count, this`collected, this`deadlock, this`nextGroup
      // as long as there is work and at most ten tasks are in flight nothing is fetched
      ensures old(count) <= 10 && old(outstanding) != [] ==> !deadlocked && Here(Next) == old(Here(Next))
      ensures if deadlocked then Reachable(c, Here(Deadlocked)) else Further(c, old(Here(Refill)), Here(Next))
    {
      hide Reachable, Further, Onward, Unique;
      ghost var s0 := Here(Refill);
      OnwardAtFirst(c, s0);
      while count > c.numjobs * GAP
        invariant Reachable(c, Here(Refill)) && Onward(c, s0, Here(Refill))
        invariant old(count) <= 10 ==> Here(Refill) == s0
      {
        RefillStep(c, s0, Here(Refill));
        GetOut(Refill);
      }
      FillStep(c, s0, Here(Refill));
      var more := true;
      while more && outstanding == []
        invariant Reachable(c, Here(if more then Fill else Next)) && Further(c, s0, Here(if more then Fill else Next))
        invariant old(count) <= 10 && old(outstanding) != [] ==> more && Here(Refill) == s0
        decreases more && outstanding == [], count
      {
        ghost var s := Here(Fill);
        deadlocked, more := RefillRound();
        if deadlocked {
          return;
        }
        FurtherTwice(c, s0, s, Here(if more then Fill else Next));
      }
      deadlocked := false;
      if more {
        NextStep(c, s0, Here(Fill));
      }
    }

    /** `runnable_status`, and with it what running the task would give: the tasks themselves are not
        modelled, so the outcome is any that the prerequisites allow. */
    method Inspect(t: Task) returns (extra: set<Task>, outcome: Outcome)
      ensures extra <= Deps(c, t) && (extra != {} ==> !Waits(Here(Loop), t))
      ensures OutcomeFits(c, Here(Loop), Discover(Here(Loop), t, extra), t, outcome)
      ensures outcome.RunMe? ==> IsResult(outcome.result)
      ensures reliable ==> !outcome.Raises? && (outcome.RunMe? ==> outcome.result == Success)
    {
      var front: bool, found: set<Task>, raises: bool, skip: bool, result: Status := *, *, *, *, *;
      var after := if t in runAfter then runAfter[t] else {};
      if exists d :: d in after && HasNotRun(d) {
        WaitsHere(t, {});
        return {}, AskLater(front);
      }
      extra := found * Deps(c, t);
      WaitsHere(t, {});
      WaitsHere(t, extra);
      if raises && !reliable {
        return extra, Raises;
      }
      if exists d :: d in after + extra && HasNotRun(d) {
        return extra, AskLater(front);
      }
      if skip {
        return extra, SkipMe;
      }
      return extra, RunMe(if reliable || !IsResult(result) then Success else result);
    }

    predicate HasNotRun(d: Task)
      reads this`hasrun
    {
      d !in hasrun || hasrun[d] == NotRun
    }

    lemma WaitsHere(t: Task, extra: set<Task>)
      ensures Waits(Discover(Here(Loop), t, extra), t) <==>
        exists d :: d in (if t in runAfter then runAfter[t] else {}) + extra && HasNotRun(d)
      ensures Waits(Here(Loop), t) <==> exists d :: d in (if t in runAfter then runAfter[t] else {}) && HasNotRun(d)
    {
      var s, s1 := Here(Loop), Discover(Here(Loop), t, extra);
      assert RunAfter(s, t) == (if t in runAfter then runAfter[t] else {});
      assert RunAfter(s1, t) == RunAfter(s, t) + extra;
      assert forall d :: HasNotRun(d) <==> !Ran(s, d);
      assert forall d :: HasNotRun(d) <==> !Ran(s1, d);
    }

    /** The branch of the main loop that the outcome selects. */
    method Act(t: Task, extra: set<Task>, outcome: Outcome)
      requires c.numjobs == 1
      modifies this`runAfter, this`frozen, this`processed, this`hasrun, this`outstanding, this`collected,
               this`count, this`started, this`out, this`stop, this`errors
      ensures Here(Loop) == ApplyOutcome(c, Discover(old(Here(Examine(t))), t, extra), t, outcome)
    {
      runAfter := runAfter[t := (if t in runAfter then runAfter[t] else {}) + extra];
      assert Here(Examine(t)) == Discover(old(Here(Examine(t))), t, extra);
      hide Discover, ApplyOutcome;
      match outcome {
        case AskLater(front) => Postpone(t, front);
        case SkipMe => Skip(t);
        case RunMe(result) =>
          RunAtOnce(c, Here(Examine(t)), t, result);
          RunIt(t, result);
        case Raises => Fail(t);
      }
    }

    method Postpone(t: Task, front: bool)
      modifies this`frozen
      ensures Here(Loop) == ApplyOutcome(c, old(Here(Examine(t))), t, AskLater(front))
    {
      if front {
        frozen := [t] + frozen;
      } else {
        frozen := frozen + [t];
      }
    }

    method Skip(t: Task)
      modifies this`processed, this`hasrun, this`outstanding, this`collected
      ensures Here(Loop) == ApplyOutcome(c, old(Here(Examine(t))), t, SkipMe)
    {
      processed := processed + 1;
      hasrun := hasrun[t := Skipped];
      outstanding, collected := outstanding + More(c, t), collected + {t};
    }

    /** The producer counts the task, and then runs it itself. */
    method RunIt(t: Task, result: Status)
      requires c.numjobs == 1
      modifies this`processed, this`hasrun, this`count, this`started, this`out, this`stop, this`errors
      ensures Here(Loop) == ProcessedState(c, CountedState(old(Here(Examine(t))), t), t, result)
    {
      count, processed, started := count + 1, processed + 1, started + {t};
      assert Here(Loop) == CountedState(old(Here(Examine(t))), t);
      hide CountedState;
      Process(t, result);
    }

    method Process(t: Task, result: Status)
      modifies this`hasrun, this`out, this`stop, this`errors
      ensures Here(Loop) == ProcessedState(c, old(Here(Loop)), t, result)
    {
      hasrun, out := hasrun[t := result], out + [t];
      if result != Success {
        ErrorHandler(t);
      }
    }

    method ErrorHandler(t: Task)
      modifies this`stop, this`errors
      ensures stop == (old(stop) || c.keep == 0) && errors == old(errors) + [t]
    {
      if c.keep == 0 {
        stop := true;
      }
      errors := errors + [t];
    }

    method Fail(t: Task)
      modifies this`processed, this`hasrun, this`stop, this`errors
      ensures Here(Loop) == ApplyOutcome(c, old(Here(Examine(t))), t, Raises)
    {
      processed := processed + 1;
      if !stop && c.keep > 0 {
        hasrun := hasrun[t := Skipped];
        if c.keep == 1 {
          if c.verbose || errors == [] {
            errors := errors + [t];
          }
          stop := true;
        } else if c.verbose {
          errors := errors + [t];
        }
      } else {
        hasrun := hasrun[t := Exception];
        ErrorHandler(t);
      }
    }

    /** One pass through the main loop; `ended` says that it breaks out for want of tasks. */
    method Pass() returns (deadlocked: bool, ended: bool)
      requires c.numjobs == 1 && Unique(c) && Reachable(c, Here(Loop)) && !stop
      modifies this
      ensures Reachable(c, Here(if deadlocked then Deadlocked else if ended then Drain else Loop))
      ensures ended ==> count == 0 && !stop
      ensures !deadlocked && !ended ==> Further(c, old(Here(Loop)), Here(Loop))
      ensures reliable ==> !stop
    {
      ghost var s0 := Here(Loop);
      hide Reachable, Further, Unique;
      ended := false;
      TestStep(c, s0);
      deadlocked := RefillTaskList();
      if deadlocked {
        return;
      }
      FurtherTwice(c, s0, s0.(pc := Refill), Here(Next));
      if outstanding == [] {
        NoneStep(c, Here(Next));
        ended := true;
        return;
      }
      var t := outstanding[0];
      ghost var s := Here(Next);
      if !HasNotRun(t) {
        RanStep(c, s0, s);
        outstanding := outstanding[1..];
        processed := processed + 1;
      } else {
        outstanding := outstanding[1..];
        LookAt(t, s0, s);
      }
    }

    method LookAt(t: Task, ghost s0: State, ghost s: State)
      requires Unique(c) && c.numjobs == 1 && Reachable(c, s) && s.pc == Next && s.outstanding != [] &&
               t == s.outstanding[0]
      requires !Ran(s, t) && !s.stop && Further(c, s0, s)
      requires Here(Examine(t)) == s.(outstanding := s.outstanding[1..], pc := Examine(t))
      modifies this
      ensures Reachable(c, Here(Loop)) && Further(c, s0, Here(Loop))
      ensures reliable ==> !stop
    {
      hide Reachable, Further, Unique, Waits, Ran;
      var extra, outcome := Inspect(t);
      ghost var s1 := Here(Examine(t));
      FitsExamined(c, Here(Loop), s1, t, extra, outcome);
      ExamineStep(c, s0, s, s1, t, extra, outcome);
      hide Reachable, Further, Unique, Waits, Ran, OutcomeFits, Discover, ApplyOutcome;
      Act(t, extra, outcome);
      if reliable { NoStop(c, Discover(s1, t, extra), t, outcome); }
    }

    /** The main loop.  It ends whatever the tasks do; it reports a deadlock only when the machine does, and
        unless the build is stopped by an error, nothing the producer was ever given is left undone. */
    method Start() returns (deadlocked: bool)
      requires c.numjobs == 1 && Unique(c) && Init(c, Here(Loop))
      modifies this
      ensures Reachable(c, Here(if deadlocked then Deadlocked else Done))
      ensures forall rank: Task -> nat :: Closed(c) && Acyclic(c, rank) ==> !deadlocked
      ensures !deadlocked && !stop ==> count == 0 && outstanding == [] && frozen == []
      ensures !deadlocked && !stop && NoEmptyGroup(c) ==> AllDone(c, Here(Done))
      ensures reliable ==> !stop
    {
      StartReached(c, Here(Loop));
      hide Reachable, Unique, NoEmptyGroup, Init, AllDone;
      var ended;
      deadlocked, ended := PassAll();
      if deadlocked {
        NoRankWhenDeadlocked(c, Here(Deadlocked));
        return;
      }
      if !ended {
        StopStep(c, Here(Loop));
      }
      DrainOut();
    }

    /** Pass after pass, until the build is stopped or nothing is left. */
    method PassAll() returns (deadlocked: bool, ended: bool)
      requires c.numjobs == 1 && Unique(c) && Reachable(c, Here(Loop)) && !stop
      modifies this
      ensures Reachable(c, Here(if deadlocked then Deadlocked else if ended then Drain else Loop))
      ensures !deadlocked && !ended ==> stop
      ensures reliable ==> !stop
    {
      hide Reachable, Further, RankOf, Unique;
      ghost var r := RankOf(c, Here(Loop));
      deadlocked, ended := false, false;
      while !stop && !ended && !deadlocked
        invariant Reachable(c, Here(if deadlocked then Deadlocked else if ended then Drain else Loop))
        invariant reliable ==> !stop
        invariant !ended && !deadlocked ==> r == RankOf(c, Here(Loop))
        decreases !ended, !deadlocked, r.work.first, r.work.second, r.work.third,
                  r.flight.first, r.flight.second, r.flight.third, r.loop.first, r.loop.second, r.loop.third
      {
        ghost var s := Here(Loop);
        deadlocked, ended := Pass();
        if !ended && !deadlocked {
          FurtherDown(c, s, Here(Loop));
          r := RankOf(c, Here(Loop));
        }
      }
    }

    /** After an error the results that are still to come are collected. */
    method DrainOut()
      requires c.numjobs == 1 && Unique(c) && Reachable(c, Here(Drain))
      modifies this`outstanding, this`out, this`count, this`collected
      ensures Reachable(c, Here(Done))
      ensures !stop ==> count == 0 && outstanding == [] && frozen == []
      ensures !stop && NoEmptyGroup(c) ==> AllDone(c, Here(Done))
    {
      hide Reachable, Unique, NoEmptyGroup, AllDone;
      while errors != [] && count > 0
        invariant Reachable(c, Here(Drain))
        decreases count
      {
        DrainStep(c, Here(Drain));
        GetOut(Drain);
      }
      EndStep(c, Here(Drain));
      NothingLeftBehind(c, Here(Done));
    }
  }

  lemma FitsExamined(c: Config, s: State, s1: State, t: Task, extra: set<Task>, outcome: Outcome)
    requires OutcomeFits(c, s, Discover(s, t, extra), t, outcome) && (extra != {} ==> !Waits(s, t))
    requires s1.hasrun == s.hasrun && s1.runAfter == s.runAfter
    ensures OutcomeFits(c, s1, Discover(s1, t, extra), t, outcome) && (extra != {} ==> !Waits(s1, t))
  {
    WaitsSame(s, s1);
    WaitsSame(Discover(s, t, extra), Discover(s1, t, extra));
    hide Waits;
  }

  lemma NoStop(c: Config, s: State, t: Task, outcome: Outcome)
    requires c.numjobs == 1 && !s.stop && !outcome.Raises? && (outcome.RunMe? ==> outcome.result == Success)
    ensures !ApplyOutcome(c, s, t, outcome).stop
  {
    if outcome.RunMe? { RunAtOnce(c, s, t, Success); }
  }

  function CountedState(s: State, t: Task): State {
    s.(count := s.count + 1, processed := s.processed + 1, started := s.started + {t}, pc := Loop)
  }

  function ProcessedState(c: Config, s: State, t: Task, result: Status): State {
    var s1 := s.(hasrun := s.hasrun[t := result], out := s.out + [t]);
    if result == Success then s1 else s1.(stop := s.stop || c.keep == 0, errors := s.errors + [t])
  }

  /** With one job, starting a task runs it to its end. */
  lemma RunAtOnce(c: Config, s: State, t: Task, result: Status)
    requires c.numjobs == 1
    ensures ApplyOutcome(c, s, t, RunMe(result)) == ProcessedState(c, CountedState(s, t), t, result)
  {}

  lemma StartReached(c: Config, s: State)
    requires Init(c, s)
    ensures Reachable(c, s)
  {
    assert Run(c, s, [], s);
  }

  lemma TestStep(c: Config, s: State)
    requires Unique(c) && Reachable(c, s) && s.pc == Loop && !s.stop
    ensures Reachable(c, s.(pc := Refill)) && Further(c, s, s.(pc := Refill))
  {
    hide Unique, Reachable, RankOf;
    var s' := Goes(c, s, TestStop);
  }

  lemma StopStep(c: Config, s: State)
    requires Reachable(c, s) && s.pc == Loop && s.stop
    ensures Reachable(c, s.(pc := Drain))
  {
    hide Reachable;
    var s' := Reach(c, s, TestStop);
  }

  lemma NoRankWhenDeadlocked(c: Config, s: State)
    requires Unique(c) && Reachable(c, s) && s.pc == Deadlocked
    ensures forall rank: Task -> nat :: !(Closed(c) && Acyclic(c, rank))
  {
    forall rank: Task -> nat ensures !(Closed(c) && Acyclic(c, rank)) {
      if Closed(c) && Acyclic(c, rank) { NeverDeadlocks(c, s, rank); }
    }
  }

  /** Nothing is left to fetch. */
  lemma NoneStep(c: Config, s: State)
    requires Unique(c) && Reachable(c, s) && s.pc == Next && s.outstanding == []
    ensures Reachable(c, s.(pc := Drain)) && s.count == 0
  {
    var s0, actions :| Init(c, s0) && Run(c, s0, actions, s);
    RunKeepsNextInv(c, s0, actions, s);
    hide Reachable, Unique;
    var s' := Reach(c, s, NextNone);
  }

  lemma RanStep(c: Config, s0: State, s: State)
    requires Unique(c) && Further(c, s0, s) && s.pc == Next && s.outstanding != [] && Ran(s, s.outstanding[0])
    ensures
      var s' := s.(outstanding := s.outstanding[1..], processed := s.processed + 1, pc := Loop);
      Reachable(c, s') && Further(c, s0, s')
  {
    hide Unique, Reachable, RankOf;
    var s' := Goes(c, s, NextRan);
    FurtherTwice(c, s0, s, s');
  }

  lemma FurtherDown(c: Config, s: State, s': State)
    requires Further(c, s, s')
    ensures Lower(RankOf(c, s'), RankOf(c, s))
  {
    hide RankOf;
  }

  lemma OnwardAtFirst(c: Config, s: State)
    requires Reachable(c, s)
    ensures Onward(c, s, s)
  {}

  lemma FurtherTwice(c: Config, s: State, s1: State, s2: State)
    requires Further(c, s, s1) && Further(c, s1, s2)
    ensures Reachable(c, s2) && Further(c, s, s2)
  {
    hide Reachable, RankOf;
  }

  lemma ExamineStep(c: Config, s0: State, s: State, s1: State, t: Task, extra: set<Task>, outcome: Outcome)
    requires Unique(c) && c.numjobs == 1 && Further(c, s0, s) && s.pc == Next && s.outstanding != [] &&
             t == s.outstanding[0]
    requires !Ran(s, t) && !s.stop && s1 == s.(outstanding := s.outstanding[1..], pc := Examine(t))
    requires extra <= Deps(c, t) && (extra != {} ==> !Waits(s1, t)) &&
             OutcomeFits(c, s1, Discover(s1, t, extra), t, outcome)
    ensures
      var s2 := ApplyOutcome(c, Discover(s1, t, extra), t, outcome);
      Reachable(c, s2) && Further(c, s0, s2)
  {
    hide Unique, Reachable, RankOf, Waits, OutcomeFits, ApplyOutcome, ApplyWorker, Discover;
    var s' := Goes(c, s, NextExamine);
    var s2 := Goes(c, s1, Examined(extra, outcome));
    FurtherTwice(c, s0, s, s1);
    FurtherTwice(c, s0, s1, s2);
  }

  lemma DrainStep(c: Config, s: State)
    requires c.numjobs == 1 && Unique(c) && Reachable(c, s) && s.pc == Drain && s.errors != [] && s.count > 0
    ensures s.out != [] && Reachable(c, Scheduler.GetOut(c, s)) && Scheduler.GetOut(c, s).count < s.count
  {
    OutNonEmpty(c, s);
    ReachGet(c, s);
  }

  lemma EndStep(c: Config, s: State)
    requires Reachable(c, s) && s.pc == Drain && (s.errors == [] || s.count == 0)
    ensures Reachable(c, s.(pc := Done))
  {
    hide Reachable;
    var s' := Reach(c, s, DrainEnd);
  }

  lemma RefillStep(c: Config, s0: State, s: State)
    requires c.numjobs == 1 && Unique(c) && Reachable(c, s) && s.pc == Refill && s.count > c.numjobs * GAP
    requires Onward(c, s0, s)
    ensures s.out != [] && Reachable(c, Scheduler.GetOut(c, s)) && Onward(c, s0, Scheduler.GetOut(c, s))
  {
    OutNonEmpty(c, s);
    CollectFrame(c, s);
    ReachGet(c, s);
    OnwardFurther(c, s0, s, Scheduler.GetOut(c, s));
  }

  lemma FillStep(c: Config, s0: State, s: State)
    requires Unique(c) && Onward(c, s0, s) && s.pc == Refill && s.count <= c.numjobs * GAP
    ensures Reachable(c, s.(pc := Fill)) && Further(c, s0, s.(pc := Fill))
  {
    hide Unique, Reachable, RankOf;
    var s' := Goes(c, s, RefillEnd);
    OnwardFurther(c, s0, s, s');
  }

  lemma NextStep(c: Config, s0: State, s: State)
    requires Unique(c) && Further(c, s0, s) && s.pc == Fill && s.outstanding != []
    ensures Reachable(c, s.(pc := Next)) && Further(c, s0, s.(pc := Next))
  {
    hide Unique, Reachable, RankOf;
    var s' := Goes(c, s, FillEnd);
    FurtherTwice(c, s0, s, s');
  }

  lemma CollectStep(c: Config, s: State)
    requires c.numjobs == 1 && Unique(c) && Reachable(c, s)
    requires s.pc == Fill && s.outstanding == [] && s.count > 0
    ensures s.out != []
    ensures
      var s1 := Scheduler.GetOut(c, s).(pc := AfterGet);
      if s1.frozen != [] then Further(c, s, Thaw(s1))
      else if s1.count == 0 then Further(c, s, Pull(c, s1))
      else Further(c, s, s1.(pc := Fill))
  {
    OutNonEmpty(c, s);
    ReachGet(c, s);
    hide Scheduler.GetOut, Unique, Reachable, RankOf;
    AfterCollect(c, s, Scheduler.GetOut(c, s).(pc := AfterGet));
  }

  lemma AfterCollect(c: Config, s: State, s1: State)
    requires Unique(c) && Further(c, s, s1) && s1.pc == AfterGet
    ensures
      if s1.frozen != [] then Further(c, s, Thaw(s1))
      else if s1.count == 0 then Further(c, s, Pull(c, s1))
      else Further(c, s, s1.(pc := Fill))
  {
    hide Unique, Reachable, RankOf;
    var s2 := Goes(c, s1, if s1.frozen != [] then GetThaw else if s1.count == 0 then GetPull else GetAgain);
    FurtherTwice(c, s, s1, s2);
  }

  lemma ThawStep(c: Config, s: State)
    requires Unique(c) && Reachable(c, s) && s.pc == Fill && s.outstanding == [] && s.count == 0 && s.frozen != []
    requires s.deadlock != At(s.processed)
    ensures Further(c, s, Thaw(s.(deadlock := At(s.processed))))
  {
    hide Unique, Reachable, RankOf;
    var s' := Goes(c, s, FillThaw);
  }

  lemma PullStep(c: Config, s: State)
    requires Unique(c) && Reachable(c, s)
    requires s.pc == Fill && s.outstanding == [] && s.count == 0 && s.frozen == []
    ensures Further(c, s, Pull(c, s))
  {
    hide Unique, Reachable, RankOf;
    var s' := Goes(c, s, FillPull);
  }

  // ---- Single steps of the producer ----

  ghost predicate CanGet(c: Config, s: State) {
    && s.out != [] && s.count > 0
    && ((s.pc == Refill && s.count > c.numjobs * GAP) || (s.pc == Fill && s.outstanding == []) ||
        (s.pc == Drain && s.errors != []))
  }

  ghost function AfterGetting(pc: Pc): Pc {
    if pc == Fill then AfterGet else pc
  }

  lemma ReachGet(c: Config, s: State)
    requires Unique(c) && Reachable(c, s) && CanGet(c, s)
    ensures Further(c, s, Scheduler.GetOut(c, s).(pc := AfterGetting(s.pc)))
  {
    hide Unique, Reachable, RankOf;
    CollectFrame(c, s);
    var s' := Goes(c, s, if s.pc == Refill then RefillGet else if s.pc == Fill then FillGet else DrainGet);
  }

  lemma ReachDeadlock(c: Config, s: State)
    requires Reachable(c, s) && s.pc == Fill && s.outstanding == [] && s.count == 0 && s.frozen != [] &&
             s.deadlock == At(s.processed)
    ensures Reachable(c, s.(pc := Deadlocked))
  {
    hide Reachable;
    var s' := Reach(c, s, FillDeadlock);
  }

  // ---- What the loops need ----

  /** With a single job everything in flight has been returned already. */
  lemma OutNonEmpty(c: Config, s: State)
    requires c.numjobs == 1 && Unique(c) && Reachable(c, s) && s.count > 0
    ensures s.out != []
  {
    CountIsInFlight(c, s);
    ReachableInv(c, s);
  }
}
