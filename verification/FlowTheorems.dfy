/**
 What holds in every state that the flow scheduler can reach, whatever the file and whenever the
 flows finish.
 */
module FlowTheorems {
  import opened Basics
  import opened Flows

  ghost predicate Reachable(hosts: set<nat>, declared: nat, file: seq<Flow>, s: State) {
    exists actions :: Run(SetUp(hosts, declared, file), actions, s)
  }

  lemma ReachableInv(hosts: set<nat>, declared: nat, file: seq<Flow>, s: State)
    requires Reachable(hosts, declared, file, s)
    ensures Inv(s, hosts, declared, file)
  {
    var s0 := SetUp(hosts, declared, file);
    var actions :| Run(s0, actions, s);
    SetUpInv(hosts, declared, file);
    RunKeepsInv(s0, actions, s, hosts, declared, file);
  }

  // ---- Accounting ----

  /** What was installed is the beginning of the file, line by line, and the counters agree with it. */
  lemma FlowsAccounted(hosts: set<nat>, declared: nat, file: seq<Flow>, s: State)
    requires Reachable(hosts, declared, file, s)
    ensures s.scheduled == s.idx == |s.qps| <= |file|
    ensures forall k :: 0 <= k < |s.qps| ==> s.qps[k].flow == file[k]
    ensures s.completed == |s.finished| && s.completed <= s.scheduled <= s.flowNum <= declared
    ensures s.pending.Some? <==> s.idx < s.flowNum
    ensures s.pending.None? ==> s.flowNum == Min(declared, |file|)
  {
    ReachableInv(hosts, declared, file, s);
    forall k | 0 <= k < |s.qps| ensures s.qps[k].flow == file[k] {
      assert OnTime(s.qps[k], file, k, s.now);
    }
  }

  /** The declared number of flows only shrinks, once, to the number of lines that could be read, and
      never to a number of flows that have finished. */
  lemma FlowNumShrinks(hosts: set<nat>, declared: nat, file: seq<Flow>, s: State, a: Action)
    requires Reachable(hosts, declared, file, s) && Enabled(s, a)
    ensures var s' := Apply(s, a);
            s'.flowNum == s.flowNum || (s.flowNum == declared && s.completed < s'.flowNum == |file| < declared)
  {
    ReachableInv(hosts, declared, file, s);
    var s' := Apply(s, a);
    if a == Wake {
      FireKeepsInv(s, hosts, declared, file);
      hide Timely, PortsGiven, Latest, Fire;
    }
  }

  /** The simulation is stopped when the last flow has finished: not before, and once. */
  lemma StoppedOnce(hosts: set<nat>, declared: nat, file: seq<Flow>, s: State)
    requires Reachable(hosts, declared, file, s)
    ensures s.stops <= 1
    ensures s.stops == 1 <==>
            s.qps != [] && s.pending.None? && forall q: nat :: q < |s.qps| ==> q in s.finished
  {
    ReachableInv(hosts, declared, file, s);
    hide Timely, PortsGiven, Latest;
    AllFinished(s.finished, |s.qps|);
  }

  /** When no line can be read nothing is ever to be done, and the stop never comes. */
  lemma NothingToRead(hosts: set<nat>, declared: nat, s: State)
    requires Reachable(hosts, declared, [], s)
    ensures s.flowNum == 0 && s.stops == 0 && forall a :: !Enabled(s, a)
  {
    FlowsAccounted(hosts, declared, [], s);
    StoppedOnce(hosts, declared, [], s);
    ReachableInv(hosts, declared, [], s);
    assert s.qps == [] && s.pending.None?;
  }

  lemma {:induction false} AllFinished(finished: set<nat>, n: nat)
    requires forall q :: q in finished ==> q < n
    ensures |finished| == n <==> forall q: nat :: q < n ==> q in finished
  {
    if n > 0 {
      var last: nat := n - 1;
      if last in finished {
        AllFinished(finished - {last}, last);
        assert forall q: nat :: q in finished - {last} <==> q in finished && q != last;
      } else {
        FinishedBound(finished, last);
      }
    }
  }

  /** A run that has come to rest has installed and finished every line it could read, and has stopped
      the simulation unless there was none. */
  lemma RestMeansAllDone(hosts: set<nat>, declared: nat, file: seq<Flow>, s: State)
    requires Reachable(hosts, declared, file, s) && forall a :: !Enabled(s, a)
    ensures |s.qps| == |s.finished| == Min(declared, |file|)
    ensures s.stops == if Min(declared, |file|) > 0 then 1 else 0
  {
    FlowsAccounted(hosts, declared, file, s);
    assert s.pending.None? by {
      ReachableInv(hosts, declared, file, s);
      assert !Enabled(s, Wake);
    }
    forall q: nat | q < |s.qps| ensures q in s.finished {
      assert !Enabled(s, Done(q, s.now));
    }
    StoppedOnce(hosts, declared, file, s);
    ReachableInv(hosts, declared, file, s);
    AllFinished(s.finished, |s.qps|);
  }

  // ---- Time ----

  /** Every line is installed at the latest start time up to it, or the tolerance before; and there are
      at most as many calls of ScheduleFlowInputs as installed flows. */
  lemma InstalledOnTime(hosts: set<nat>, declared: nat, file: seq<Flow>, s: State, k: nat)
    requires Reachable(hosts, declared, file, s) && k < |s.qps|
    ensures k < |file| && s.qps[k].at <= Latest(file, k) <= s.qps[k].at + 1
    ensures s.activations <= |s.qps|
  {
    ReachableInv(hosts, declared, file, s);
    assert OnTime(s.qps[k], file, k, s.now);
  }

  ghost predicate Sorted(file: seq<Flow>) {
    forall i, j :: 0 <= i < j < |file| ==> file[i].start <= file[j].start
  }

  /** In a file ordered by start time that is every flow's own start time. */
  lemma SortedInstalledOnTime(hosts: set<nat>, declared: nat, file: seq<Flow>, s: State, k: nat)
    requires Sorted(file) && Reachable(hosts, declared, file, s) && k < |s.qps|
    ensures s.qps[k].at <= s.qps[k].flow.start <= s.qps[k].at + 1
  {
    ReachableInv(hosts, declared, file, s);
    assert OnTime(s.qps[k], file, k, s.now);
    assert Latest(file, k) == file[k].start;
  }

  /** Every call installs a flow, and the next one is due more than the tolerance later: the branch for
      a start time that has already passed is never taken. */
  lemma CallsInstall(hosts: set<nat>, declared: nat, file: seq<Flow>, s: State)
    requires Reachable(hosts, declared, file, s) && Due(s)
    ensures Fire(s).idx > s.idx
    ensures Fire(s).pending.Some? ==> Fire(s).pending.value > Fire(s).now + 1
  {
    ReachableInv(hosts, declared, file, s);
    FireKeepsInv(s, hosts, declared, file);
    AwakeInv(s, hosts, declared, file);
    LoopKeepsInv(Awake(s), hosts, declared, file);
    hide LoopInv, InstallDue, Counts, Timely, PortsGiven, Latest;
  }

  // ---- Ports ----

  lemma {:induction false} CountMonotone(qps: seq<Qp>, k: nat, n: nat, src: nat, dst: nat)
    requires k <= n <= |qps|
    ensures Count(qps, k, src, dst) <= Count(qps, n, src, dst)
    ensures k < n && qps[k].flow.src == src && qps[k].flow.dst == dst ==>
            Count(qps, k, src, dst) < Count(qps, n, src, dst)
  {
    if k < n { CountMonotone(qps, k, n - 1, src, dst); }
  }

  lemma {:induction false} Occurrence(qps: seq<Qp>, n: nat, src: nat, dst: nat, c: nat) returns (k: nat)
    requires n <= |qps| && c < Count(qps, n, src, dst)
    ensures k < n && Count(qps, k, src, dst) == c && qps[k].flow.src == src && qps[k].flow.dst == dst
  {
    if Count(qps, n - 1, src, dst) == c {
      k := n - 1;
    } else {
      k := Occurrence(qps, n - 1, src, dst, c);
    }
  }

  ghost predicate SameTriple(p: Qp, q: Qp) {
    p.flow.src == q.flow.src && p.flow.dst == q.flow.dst && p.port == q.port
  }

  lemma Residue(first: nat, c: nat, d: nat)
    requires c < d && (first + c) % PORTS == (first + d) % PORTS
    ensures d - c >= PORTS
  {}

  lemma Wraps(first: nat)
    ensures (first + PORTS) % PORTS == first % PORTS
  {}

  /** The 16-bit port wraps: source, destination and port tell all flows apart exactly as long as no
      pair of nodes has more than 65536 of them. */
  lemma TriplesDistinct(hosts: set<nat>, declared: nat, file: seq<Flow>, s: State)
    requires Reachable(hosts, declared, file, s)
    ensures (forall i, j :: 0 <= i < j < |s.qps| ==> !SameTriple(s.qps[i], s.qps[j])) <==>
            (forall src, dst :: Count(s.qps, |s.qps|, src, dst) <= 65_536)
  {
    ReachableInv(hosts, declared, file, s);
    var qps := s.qps;
    assert forall k :: 0 <= k < |qps| ==> PortGiven(qps, hosts, k);
    hide Inv, PortGiven, Count, SameTriple, Reachable;
    if forall src, dst :: Count(qps, |qps|, src, dst) <= PORTS {
      forall i, j | 0 <= i < j < |qps| ensures !SameTriple(qps[i], qps[j]) {
        FewFlowsDiffer(qps, hosts, i, j);
      }
    } else {
      var src, dst :| Count(qps, |qps|, src, dst) > PORTS;
      var i, j := ManyFlowsCollide(qps, hosts, src, dst);
      assert SameTriple(qps[i], qps[j]);
    }
  }

  /** A file of one flow more than there are ports, all between the same two nodes: once it is installed
      two flows cannot be told apart. */
  lemma OneFlowTooMany(hosts: set<nat>, f: Flow, s: State)
    requires Reachable(hosts, PORTS + 1, seq(PORTS + 1, _ => f), s) && forall a :: !Enabled(s, a)
    ensures |s.qps| == PORTS + 1 && exists i, j :: 0 <= i < j < |s.qps| && SameTriple(s.qps[i], s.qps[j])
  {
    var file := seq(PORTS + 1, _ => f);
    assert |file| == PORTS + 1;
    FlowsAccounted(hosts, PORTS + 1, file, s);
    RestMeansAllDone(hosts, PORTS + 1, file, s);
    TriplesDistinct(hosts, PORTS + 1, file, s);
    AllOnePair(s.qps, |s.qps|, f);
  }

  lemma {:induction false} AllOnePair(qps: seq<Qp>, n: nat, f: Flow)
    requires n <= |qps| && forall k :: 0 <= k < n ==> qps[k].flow == f
    ensures Count(qps, n, f.src, f.dst) == n
  {
    if n > 0 { AllOnePair(qps, n - 1, f); }
  }

  lemma ManyFlowsCollide(qps: seq<Qp>, hosts: set<nat>, src: nat, dst: nat) returns (i: nat, j: nat)
    requires forall k :: 0 <= k < |qps| ==> PortGiven(qps, hosts, k)
    requires Count(qps, |qps|, src, dst) > PORTS
    ensures i < j < |qps| && SameTriple(qps[i], qps[j])
  {
    i := Occurrence(qps, |qps|, src, dst, 0);
    j := Occurrence(qps, |qps|, src, dst, PORTS);
    assert PortGiven(qps, hosts, i) && PortGiven(qps, hosts, j);
    Wraps(First(hosts, src, dst));
    if j < i { CountMonotone(qps, j, i, src, dst); }
    hide Count;
  }

  lemma FewFlowsDiffer(qps: seq<Qp>, hosts: set<nat>, i: nat, j: nat)
    requires i < j < |qps| && PortGiven(qps, hosts, i) && PortGiven(qps, hosts, j)
    requires Count(qps, |qps|, qps[i].flow.src, qps[i].flow.dst) <= PORTS
    ensures !SameTriple(qps[i], qps[j])
  {
    var src, dst := qps[i].flow.src, qps[i].flow.dst;
    if SameTriple(qps[i], qps[j]) {
      CountMonotone(qps, i, j, src, dst);
      CountMonotone(qps, j, |qps|, src, dst);
      Residue(First(hosts, src, dst), Count(qps, i, src, dst), Count(qps, j, src, dst));
    }
  }
}
