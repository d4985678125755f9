/**
 The flow file and the simulation: reading the next line, installing the flows that are due, and
 counting the flows that finish. Times are in nanoseconds.
 */
module Flows {
  import opened Basics

  const FIRST_PORT := 10000
  const PORTS := 65536

  datatype Flow = Flow(src: nat, dst: nat, pg: nat, dport: nat, size: nat, start: nat)

  /** A flow with the source port it was given and the time it was installed at. */
  datatype Qp = Qp(flow: Flow, port: nat, at: nat)

  /** `input` is what the flow file still holds up to the first line that cannot be read; `cur` is the
      line read last; `pending` is the time of the next call of ScheduleFlowInputs. */
  datatype State = State(
    input: seq<Flow>, cur: Option<Flow>, idx: nat, flowNum: nat, ports: map<(nat, nat), nat>,
    scheduled: nat, completed: nat, allScheduled: bool, qps: seq<Qp>, finished: set<nat>,
    now: nat, pending: Option<nat>, activations: nat, stops: nat)

  // ---- What the functions of the source do to the state ----

  function CanRead(s: State): bool {
    s.idx < s.flowNum && s.input != []
  }

  function ReadFlow(s: State): State {
    if s.idx >= s.flowNum then s
    else if s.input == [] then s.(flowNum := s.idx, cur := None)
    else s.(cur := Some(s.input[0]), input := s.input[1..])
  }

  function PortOf(ports: map<(nat, nat), nat>, src: nat, dst: nat): nat {
    if (src, dst) in ports then ports[(src, dst)] else 0
  }

  function Install(s: State): State
    requires s.cur.Some?
  {
    var f := s.cur.value;
    var port := PortOf(s.ports, f.src, f.dst);
    s.(scheduled := s.scheduled + 1, ports := s.ports[(f.src, f.dst) := (port + 1) % PORTS],
       qps := s.qps + [Qp(f, port, s.now)], idx := s.idx + 1)
  }

  ghost predicate Ready(s: State) {
    s.idx < s.flowNum ==> s.cur.Some?
  }

  function InstallDue(s: State): State
    requires Ready(s)
    decreases s.flowNum - s.idx
  {
    if s.idx < s.flowNum && s.cur.value.start <= s.now + 1 then
      var installed := Install(s);
      var next := ReadFlow(installed);
      if CanRead(installed) then InstallDue(next) else next
    else s
  }

  function Reschedule(s: State): State
    requires Ready(s)
  {
    if s.idx < s.flowNum then
      s.(pending := Some(if s.cur.value.start > s.now then s.cur.value.start else s.now + 1))
    else s.(pending := None, allScheduled := true)
  }

  ghost predicate Due(s: State) {
    Ready(s) && s.pending.Some?
  }

  function Awake(s: State): State
    requires s.pending.Some?
  {
    s.(now := s.pending.value, pending := None, activations := s.activations + 1)
  }

  lemma InstallReady(s: State)
    requires Ready(s)
    ensures Ready(InstallDue(s))
    decreases s.flowNum - s.idx
  {}

  function Fire(s: State): State
    requires Due(s)
  {
    InstallReady(Awake(s));
    Reschedule(InstallDue(Awake(s)))
  }

  function Finish(s: State, qp: nat, at: nat): State {
    s.(now := at, finished := s.finished + {qp}, completed := s.completed + 1,
       stops := if s.completed + 1 == s.flowNum then s.stops + 1 else s.stops)
  }

  function FirstPorts(hosts: set<nat>): map<(nat, nat), nat> {
    map a, b | a in hosts && b in hosts :: (a, b) := FIRST_PORT
  }

  function SetUp(hosts: set<nat>, declared: nat, file: seq<Flow>): State {
    var s := State(file, None, 0, declared, FirstPorts(hosts), 0, 0, false, [], {}, 0, None, 0, 0);
    if declared == 0 then s
    else if file == [] then ReadFlow(s).(flowNum := 0)
    else ReadFlow(s).(pending := Some(file[0].start))
  }

  // ---- Runs ----

  datatype Action = Wake | Done(qp: nat, at: nat)

  /** A flow finishes once, after it was installed; nothing happens later than the pending event. */
  ghost predicate Enabled(s: State, a: Action) {
    match a
    case Wake => Due(s)
    case Done(qp, at) =>
      qp < |s.qps| && qp !in s.finished && s.now <= at && (s.pending.Some? ==> at <= s.pending.value)
  }

  ghost function Apply(s: State, a: Action): State
    requires Enabled(s, a)
  {
    match a
    case Wake => Fire(s)
    case Done(qp, at) => Finish(s, qp, at)
  }

  ghost predicate Run(s: State, actions: seq<Action>, s': State)
    decreases |actions|
  {
    if actions == [] then s' == s
    else Enabled(s, actions[0]) && Run(Apply(s, actions[0]), actions[1..], s')
  }

  // ---- The invariant ----

  /** The latest start time among the lines 0..k of the file. */
  function Latest(file: seq<Flow>, k: nat): (t: nat)
    requires k < |file|
    ensures forall j :: 0 <= j <= k ==> file[j].start <= t
    ensures exists j :: 0 <= j <= k && file[j].start == t
  {
    if k == 0 || Latest(file, k - 1) < file[k].start then file[k].start else Latest(file, k - 1)
  }

  ghost predicate Counts(s: State, file: seq<Flow>, declared: nat) {
    && s.idx == s.scheduled == |s.qps| && s.idx <= s.flowNum <= declared && s.idx <= |file|
    && s.completed == |s.finished| && (forall q :: q in s.finished ==> q < |s.qps|)
    && s.completed <= s.idx
    && s.stops == if 0 < s.flowNum == s.completed then 1 else 0
  }

  ghost predicate Reading(s: State, file: seq<Flow>, declared: nat) {
    && s.idx <= |file|
    && if s.idx < s.flowNum then
         s.flowNum == declared && s.idx < |file| && s.cur == Some(file[s.idx]) && s.input == file[s.idx + 1..]
       else s.flowNum == Min(declared, |file|)
  }

  /** Line k was installed at the latest start time so far, give or take the tolerance. */
  ghost predicate OnTime(q: Qp, file: seq<Flow>, k: nat, now: nat)
    requires k < |file|
  {
    q.flow == file[k] && q.at <= now && q.at <= Latest(file, k) <= q.at + 1
  }

  ghost predicate Timely(s: State, file: seq<Flow>) {
    |s.qps| <= |file| && forall k :: 0 <= k < |s.qps| ==> OnTime(s.qps[k], file, k, s.now)
  }

  function Count(qps: seq<Qp>, n: nat, src: nat, dst: nat): nat
    requires n <= |qps|
  {
    if n == 0 then 0
    else Count(qps, n - 1, src, dst) + if qps[n - 1].flow.src == src && qps[n - 1].flow.dst == dst then 1 else 0
  }

  function First(hosts: set<nat>, src: nat, dst: nat): nat {
    if src in hosts && dst in hosts then 10_000 else 0
  }

  ghost predicate PortGiven(qps: seq<Qp>, hosts: set<nat>, k: nat)
    requires k < |qps|
  {
    var f := qps[k].flow;
    qps[k].port == (First(hosts, f.src, f.dst) + Count(qps, k, f.src, f.dst)) % 65_536
  }

  ghost predicate NextPort(ports: map<(nat, nat), nat>, qps: seq<Qp>, hosts: set<nat>, src: nat, dst: nat) {
    PortOf(ports, src, dst) == (First(hosts, src, dst) + Count(qps, |qps|, src, dst)) % PORTS
  }

  ghost predicate PortsGiven(s: State, hosts: set<nat>) {
    && (forall k :: 0 <= k < |s.qps| ==> PortGiven(s.qps, hosts, k))
    && (forall src, dst :: NextPort(s.ports, s.qps, hosts, src, dst))
  }

  /** Between two events. */
  ghost predicate Inv(s: State, hosts: set<nat>, declared: nat, file: seq<Flow>) {
    && Counts(s, file, declared) && Reading(s, file, declared) && Timely(s, file) && PortsGiven(s, hosts)
    && s.activations <= s.idx
    && s.pending == (if s.idx < s.flowNum then Some(file[s.idx].start) else None)
    && (s.idx < s.flowNum ==> s.now <= file[s.idx].start == Latest(file, s.idx))
  }

  /** At the head of the loop of ScheduleFlowInputs. */
  ghost predicate LoopInv(s: State, hosts: set<nat>, declared: nat, file: seq<Flow>) {
    && Counts(s, file, declared) && Reading(s, file, declared) && Timely(s, file) && PortsGiven(s, hosts)
    && (forall k :: 0 <= k < s.idx ==> file[k].start <= s.now + 1)
    && (s.idx < s.flowNum ==> s.now <= Latest(file, s.idx))
  }

  // ---- One installed flow ----

  lemma CountAppend(qps: seq<Qp>, q: Qp, n: nat, src: nat, dst: nat)
    requires n <= |qps|
    ensures Count(qps + [q], n, src, dst) == Count(qps, n, src, dst)
  {
    if n > 0 { CountAppend(qps, q, n - 1, src, dst); }
  }

  lemma PortKept(qps: seq<Qp>, q: Qp, hosts: set<nat>, k: nat)
    requires k < |qps| && PortGiven(qps, hosts, k)
    ensures PortGiven(qps + [q], hosts, k)
  {
    CountAppend(qps, q, k, qps[k].flow.src, qps[k].flow.dst);
  }

  lemma NextPortKept(ports: map<(nat, nat), nat>, qps: seq<Qp>, f: Flow, at: nat, hosts: set<nat>, src: nat, dst: nat)
    requires NextPort(ports, qps, hosts, src, dst)
    ensures var port := PortOf(ports, f.src, f.dst);
            NextPort(ports[(f.src, f.dst) := (port + 1) % PORTS], qps + [Qp(f, port, at)], hosts, src, dst)
  {
    var port := PortOf(ports, f.src, f.dst);
    CountAppend(qps, Qp(f, port, at), |qps|, src, dst);
    NextModulo(First(hosts, src, dst) + Count(qps, |qps|, src, dst));
  }

  lemma NextModulo(n: nat)
    ensures (n % PORTS + 1) % PORTS == (n + 1) % PORTS
  {}

  lemma InstallKeepsPorts(s: State, hosts: set<nat>)
    requires PortsGiven(s, hosts) && s.cur.Some?
    ensures PortsGiven(Install(s), hosts)
  {
    var f, s' := s.cur.value, Install(s);
    var q := Qp(f, PortOf(s.ports, f.src, f.dst), s.now);
    assert NextPort(s.ports, s.qps, hosts, f.src, f.dst);
    CountAppend(s.qps, q, |s.qps|, f.src, f.dst);
    assert PortGiven(s'.qps, hosts, |s.qps|);
    forall k | 0 <= k < |s.qps| ensures PortGiven(s'.qps, hosts, k) {
      PortKept(s.qps, q, hosts, k);
    }
    forall src, dst ensures NextPort(s'.ports, s'.qps, hosts, src, dst) {
      NextPortKept(s.ports, s.qps, f, s.now, hosts, src, dst);
    }
  }

  lemma InstallTimely(s: State, file: seq<Flow>)
    requires Timely(s, file) && |s.qps| < |file| && s.cur == Some(file[|s.qps|])
    requires s.now <= Latest(file, |s.qps|)
    requires forall k :: 0 <= k < |s.qps| ==> file[k].start <= s.now + 1
    requires file[|s.qps|].start <= s.now + 1
    ensures Timely(Install(s), file)
  {
    var s' := Install(s);
    forall k | 0 <= k < |s'.qps| ensures OnTime(s'.qps[k], file, k, s'.now) {
      if k < |s.qps| {
        assert OnTime(s.qps[k], file, k, s.now);
      }
    }
  }

  lemma InstallReading(s: State, declared: nat, file: seq<Flow>)
    requires Reading(s, file, declared) && s.idx < s.flowNum
    ensures Reading(ReadFlow(Install(s)), file, declared)
  {
    var rest := file[s.idx + 1..];
    if rest != [] {
      assert rest[0] == file[s.idx + 1] && rest[1..] == file[s.idx + 1 + 1..];
    }
  }

  lemma InstallCounts(s: State, declared: nat, file: seq<Flow>)
    requires Counts(s, file, declared) && Reading(s, file, declared) && s.idx < s.flowNum
    ensures Counts(ReadFlow(Install(s)), file, declared)
  {}

  /** One turn of the loop. */
  lemma TurnKeepsInv(s: State, hosts: set<nat>, declared: nat, file: seq<Flow>)
    requires LoopInv(s, hosts, declared, file) && s.idx < s.flowNum && s.cur.value.start <= s.now + 1
    ensures LoopInv(ReadFlow(Install(s)), hosts, declared, file)
  {
    hide NextPort, PortGiven, OnTime, PortOf, PortsGiven, Timely;
    InstallKeepsPorts(s, hosts);
    InstallTimely(s, file);
    InstallReading(s, declared, file);
    InstallCounts(s, declared, file);
    TurnFrame(s, hosts, file);
    hide Install, ReadFlow;
    var s2 := ReadFlow(Install(s));
    assert s2.idx <= |file| && (s2.idx < s2.flowNum ==> s2.idx < |file|);
    hide Counts, Reading;
    forall k | 0 <= k < s2.idx ensures file[k].start <= s2.now + 1 {}
    if s2.idx < s2.flowNum { LatestGrows(file, s.idx); }
  }

  lemma TurnFrame(s: State, hosts: set<nat>, file: seq<Flow>)
    requires s.cur.Some?
    ensures var s1, s2 := Install(s), ReadFlow(Install(s));
            && s2.idx == s.idx + 1 && s2.now == s.now
            && (PortsGiven(s1, hosts) ==> PortsGiven(s2, hosts)) && (Timely(s1, file) ==> Timely(s2, file))
  {
    hide NextPort, PortGiven, OnTime;
  }

  lemma LatestGrows(file: seq<Flow>, k: nat)
    requires k + 1 < |file|
    ensures Latest(file, k) <= Latest(file, k + 1)
  {}

  lemma {:induction false} LoopKeepsInv(s: State, hosts: set<nat>, declared: nat, file: seq<Flow>)
    requires LoopInv(s, hosts, declared, file)
    ensures Ready(s) && LoopInv(InstallDue(s), hosts, declared, file)
    ensures var s' := InstallDue(s); s'.idx < s'.flowNum ==> file[s'.idx].start > s'.now + 1
    ensures InstallDue(s).now == s.now && InstallDue(s).idx >= s.idx
    ensures s.idx < s.flowNum && file[s.idx].start <= s.now + 1 ==> InstallDue(s).idx > s.idx
    decreases s.flowNum - s.idx
  {
    if s.idx < s.flowNum && s.cur.value.start <= s.now + 1 {
      TurnKeepsInv(s, hosts, declared, file);
      var next := ReadFlow(Install(s));
      if CanRead(Install(s)) {
        LoopKeepsInv(next, hosts, declared, file);
      }
    }
  }

  lemma AwakeInv(s: State, hosts: set<nat>, declared: nat, file: seq<Flow>)
    requires Inv(s, hosts, declared, file) && Due(s)
    ensures LoopInv(Awake(s), hosts, declared, file)
    ensures s.idx < s.flowNum && s.idx < |file| && file[s.idx].start == Awake(s).now
  {
    hide PortGiven, NextPort, Latest;
    var s' := Awake(s);
    forall k | 0 <= k < |s.qps| ensures OnTime(s'.qps[k], file, k, s'.now) {
      assert OnTime(s.qps[k], file, k, s.now);
    }
    forall k | 0 <= k < s.idx ensures file[k].start <= s'.now + 1 {
      LatestBounds(file, s.idx, k);
    }
  }

  lemma LatestBounds(file: seq<Flow>, n: nat, k: nat)
    requires k <= n < |file|
    ensures file[k].start <= Latest(file, n)
  {}

  lemma RescheduleInv(s: State, hosts: set<nat>, declared: nat, file: seq<Flow>)
    requires LoopInv(s, hosts, declared, file) && Ready(s) && s.activations <= s.idx
    requires s.idx < s.flowNum ==> file[s.idx].start > s.now + 1
    ensures Inv(Reschedule(s), hosts, declared, file)
  {
    hide PortGiven, NextPort, OnTime, Latest;
    var s' := Reschedule(s);
    assert PortsGiven(s', hosts) && Timely(s', file) && Counts(s', file, declared) && Reading(s', file, declared);
    hide PortsGiven, Timely, Counts;
    if s.idx < s.flowNum {
      LatestIsNext(file, s.idx, s.now);
    }
  }

  lemma FireKeepsInv(s: State, hosts: set<nat>, declared: nat, file: seq<Flow>)
    requires Inv(s, hosts, declared, file) && Due(s)
    ensures Inv(Fire(s), hosts, declared, file)
    ensures Fire(s).idx > s.idx && Fire(s).activations == s.activations + 1
  {
    AwakeInv(s, hosts, declared, file);
    LoopKeepsInv(Awake(s), hosts, declared, file);
    InstallKeepsClock(Awake(s));
    assert s.activations <= s.idx;
    hide LoopInv, Inv, InstallDue;
    RescheduleInv(InstallDue(Awake(s)), hosts, declared, file);
  }

  lemma {:induction false} InstallKeepsClock(s: State)
    requires Ready(s)
    ensures var s' := InstallDue(s);
            s'.pending == s.pending && s'.activations == s.activations && s'.flowNum <= s.flowNum
    decreases s.flowNum - s.idx
  {
    if s.idx < s.flowNum && s.cur.value.start <= s.now + 1 && CanRead(Install(s)) {
      InstallKeepsClock(ReadFlow(Install(s)));
    }
  }

  lemma LatestIsNext(file: seq<Flow>, k: nat, now: nat)
    requires k < |file| && file[k].start > now + 1
    requires forall j :: 0 <= j < k ==> file[j].start <= now + 1
    ensures Latest(file, k) == file[k].start
  {}

  lemma FinishKeepsInv(s: State, hosts: set<nat>, declared: nat, file: seq<Flow>, qp: nat, at: nat)
    requires Inv(s, hosts, declared, file) && Enabled(s, Done(qp, at))
    ensures Inv(Finish(s, qp, at), hosts, declared, file)
  {
    var s' := Finish(s, qp, at);
    assert PortsGiven(s', hosts) && Timely(s', file);
    hide PortsGiven, Timely;
    assert s'.completed <= s'.idx by {
      FinishedBound(s'.finished, |s.qps|);
    }
  }

  lemma {:induction false} FinishedBound(finished: set<nat>, n: nat)
    requires forall q :: q in finished ==> q < n
    ensures |finished| <= n
  {
    if n > 0 {
      FinishedBound(finished - {n - 1}, n - 1);
    }
  }

  lemma SetUpInv(hosts: set<nat>, declared: nat, file: seq<Flow>)
    ensures Inv(SetUp(hosts, declared, file), hosts, declared, file)
  {
    var s := SetUp(hosts, declared, file);
    assert PortsGiven(s, hosts) by {
      forall src, dst ensures NextPort(s.ports, s.qps, hosts, src, dst) {}
    }
    hide PortsGiven;
    assert file != [] ==> file[0 + 1..] == file[1..];
  }

  /** Every state of every run keeps the invariant. */
  lemma {:induction false} RunKeepsInv(s: State, actions: seq<Action>, s': State, hosts: set<nat>, declared: nat,
                                       file: seq<Flow>)
    requires Inv(s, hosts, declared, file) && Run(s, actions, s')
    ensures Inv(s', hosts, declared, file)
    decreases |actions|
  {
    if actions != [] {
      match actions[0] {
        case Wake => FireKeepsInv(s, hosts, declared, file);
        case Done(qp, at) => FinishKeepsInv(s, hosts, declared, file, qp, at);
      }
      RunKeepsInv(Apply(s, actions[0]), actions[1..], s', hosts, declared, file);
    }
  }
}
