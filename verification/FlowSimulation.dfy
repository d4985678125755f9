/**
 The functions of the simulation that read, schedule and finish flows, in the form they have there:
 they update global variables step by step.
 */
module FlowSimulation {
  import opened Basics
  import opened Flows

  function Hosts(isHost: seq<bool>): set<nat> {
    set i: nat | i < |isHost| && isHost[i]
  }

  class Simulation {
    var input: seq<Flow>
    var flowInput: Option<Flow>
    var idx: nat
    var flowNum: nat
    var portNumber: map<(nat, nat), nat>
    var scheduledFlows: nat
    var completedFlows: nat
    var allFlowsScheduled: bool
    var qps: seq<Qp>
    var finished: set<nat>
    var now: nat
    var pending: Option<nat>
    var activations: nat
    var stops: nat

    ghost function Abs(): State
      reads this
    {
      State(input, flowInput, idx, flowNum, portNumber, scheduledFlows, completedFlows, allFlowsScheduled,
            qps, finished, now, pending, activations, stops)
    }

    /** The part of the set-up that deals with flows: port numbers, the first line, the first event. */
    constructor (isHost: seq<bool>, declared: nat, file: seq<Flow>)
      ensures Abs() == SetUp(Hosts(isHost), declared, file)
    {
      input, flowInput, flowNum := file, None, declared;
      idx, portNumber := 0, map[];
      scheduledFlows, completedFlows, allFlowsScheduled := 0, 0, false;
      qps, finished := [], {};
      now, pending, activations, stops := 0, None, 0, 0;
      new;
      var ports := InitialPorts(isHost);
      portNumber := ports;
      if flowNum > 0 {
        var ok := ReadFlowInput();
        if !ok {
          flowNum := 0;
        } else {
          pending := Some(flowInput.value.start);
        }
      }
    }

    /** The next line becomes the current one; if there is none, the number of flows shrinks to those read. */
    method ReadFlowInput() returns (ok: bool)
      modifies this
      ensures Abs() == ReadFlow(old(Abs())) && ok == CanRead(old(Abs()))
    {
      if idx < flowNum {
        if input == [] {
          flowInput := None;
          flowNum := idx;
          return false;
        }
        flowInput, input := Some(input[0]), input[1..];
        return true;
      }
      return false;
    }

    /** The flow read last gets the next port of its pair and is installed. */
    method InstallCurrent()
      requires flowInput.Some?
      modifies this
      ensures Abs() == Install(old(Abs()))
    {
      scheduledFlows := scheduledFlows + 1;
      var f := flowInput.value;
      var port := PortOf(portNumber, f.src, f.dst);
      portNumber := portNumber[(f.src, f.dst) := (port + 1) % PORTS];
      qps := qps + [Qp(f, port, now)];
      idx := idx + 1;
    }

    /** The event that was pending: all flows that are due are installed, then the next event is set. */
    method ScheduleFlowInputs()
      requires Due(Abs())
      modifies this
      ensures Abs() == Fire(old(Abs()))
    {
      now, pending, activations := pending.value, None, activations + 1;
      ghost var woken := Abs();
      assert woken == Awake(old(Abs()));
      var more := idx < flowNum;
      while more && idx < flowNum && flowInput.value.start <= now + 1
        invariant Ready(Abs())
        invariant InstallDue(woken) == if more then InstallDue(Abs()) else Abs()
        invariant !more ==> idx >= flowNum
        invariant pending.None?
        decreases flowNum - idx, more
      {
        InstallCurrent();
        more := ReadFlowInput();
      }
      assert Abs() == InstallDue(woken);
      hide InstallDue;
      if idx < flowNum {
        var start := flowInput.value.start;
        pending := Some(if start > now then start else now + 1);
      } else {
        allFlowsScheduled := true;
      }
    }

    /** A flow has finished; with the last one the simulation is stopped. */
    method QpFinish(qp: nat, at: nat)
      requires Enabled(Abs(), Done(qp, at))
      modifies this
      ensures Abs() == Finish(old(Abs()), qp, at)
    {
      now := at;
      finished := finished + {qp};
      completedFlows := completedFlows + 1;
      if completedFlows == flowNum {
        stops := stops + 1;
      }
    }
  }

  method InitialPorts(isHost: seq<bool>) returns (ports: map<(nat, nat), nat>)
    ensures ports == FirstPorts(Hosts(isHost))
  {
    ports := map[];
    for i := 0 to |isHost|
      invariant forall a: nat, b: nat :: (a, b) in ports <==> a < i && isHost[a] && b < |isHost| && isHost[b]
      invariant forall p :: p in ports ==> ports[p] == FIRST_PORT
    {
      if isHost[i] {
        for j := 0 to |isHost|
          invariant forall a: nat, b: nat :: (a, b) in ports <==>
                      && a < |isHost| && isHost[a] && b < |isHost| && isHost[b]
                      && (a < i || (a == i && b < j))
          invariant forall p :: p in ports ==> ports[p] == FIRST_PORT
        {
          if isHost[j] {
            ports := ports[(i, j) := FIRST_PORT];
          }
        }
      }
    }
    var first := FirstPorts(Hosts(isHost));
    forall p: (nat, nat) ensures p in ports <==> p in first {
      var (a, b) := p;
    }
  }
}
