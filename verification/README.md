# Verified models of the simulation and its tools

The repository simulates data-centre networks: a script that sets up routing and flows, generators for
topologies and traffic, and the build system that comes with the simulator. This project models the
algorithms in them as Dafny programs and proves what they do, on all inputs.

| file | models |
|---|---|
| NetGraph, Exploration, Routing, RouteTheorems | shortest-path search, forwarding tables and link failures |
| LeafSpine, LeafSpineRoutes, SimpleTopology | the topology files, and the paths in a leaf-spine network |
| Flows, FlowTheorems, FlowSimulation | the flow file, the scheduling of its flows, and the end of the simulation |
| TrafficGen, CustomRand, FlowBins | the heap-driven flow generators and the distribution of flow sizes |
| Scheduler, SchedulerTheorems, SchedulerEnds, OneJob, BuildOrder | the parallel build scheduler, how its runs end, its loop with one job, and its constraints |
| Cycles, Glob, Conditionals, ConfigSets | cycle enumeration, `**` patterns, conditional directives, chained environments |
| Digraph, Topsort, MethodOrder, UseOrder | topological orders |
| Basics | options, lists and arithmetic that several files share |

Code that changes state is modelled as classes and loops with the source's own variables. Each such
method is proved against a specification function or a property, and what holds of whole runs is proved
about those. Workers of the scheduler, the moments at which flows finish, the order of dictionaries and
all random draws are left open: the results hold for each of them.

Where the code and what it seems to promise differ, the code is followed:

- A group of tasks can be pulled although one of an earlier group has not run: it was handed back by a
  worker after an error stopped the build. `GroupsInOrder` says exactly when, `GroupPulledTooEarly`
  shows a run.
- A pattern with two adjacent `**` makes the glob automaton call `match` on a string. `CrashIff` says
  exactly on which patterns some path does so, `AntGlob` in which trees the walk fails;
  `AdjacentStarsCrash` and `AdjacentStarsFail` show inputs.
- The header of a leaf-spine file announces all DCI switches meshed, while the emission knows one of each
  data centre, and counts hosts that need not fit the leaves. `LeafSpine.HeaderAgrees` says exactly when
  it is right, `HeaderOff` shows inputs. Without DCI switches the header has three numbers instead of
  four; with several in each data centre the list of ids names one of them.
- The simple topology emits links for one switch per data centre whatever their number, and links to DCI
  switches even when there are none. `SimpleTopology.HeaderAgrees` and `EndsKnown` say exactly when the
  announced links and nodes are those of the file, `HeaderOff` and `EndUnknown` show inputs; its lists of
  switch ids name one of each data centre.
- 16-bit source ports wrap. `TriplesDistinct` says exactly how long flows can be told apart,
  `OneFlowTooMany` shows an input.
- A flow file whose first line cannot be read sets the number of flows to 0, and the completion counter
  then never stops the simulation (`StoppedOnce`, `NothingToRead`).
- The generators do not write the last arrival of a host, although it may lie before the end: an arrival
  is written exactly if the host's next one is by the end (`Turns`, `Written` and `Generated` in
  TrafficGen; `LastArrivalNotWritten` shows an input). With the default of one data centre there is no
  other to choose, and the generator fails exactly if a flow is to be written (`GenerateInterDc`).
- When the `#if` of a chain cannot be evaluated all its branches are visited; the scanner means to.
  `AtMostOneBranch` says exactly when at most one is, `BothBranchesAct` shows an input.
- A name that a precedence list says twice can come out twice. `Backward` says how often each comes out,
  and that the order is right where each stands last; `OnceIfFreedOnce` says exactly when none is repeated,
  `TwoAgain` shows an input.
- When two task classes claim to come before each other, which one wins depends on the order of a
  dictionary. `OrderMattersOnClash`, `TableMattersOnClash` and `BuildMattersOnClash` say exactly when it
  matters, `EitherWay` shows an input.

## Model

| member | source | states |
|---|---|---|
| Exploration.ShortPathFound | simulation/scratch/third.cc:430-458 | at any moment of the search, every path not longer than the current level leads to a node whose distance is already known and is not larger |
| Exploration.CompleteBeforeExpansion | simulation/scratch/third.cc:430-477 | when a node comes up for expansion its list already holds every minimum-hop path to it and nothing else |
| Exploration.VisitKeepsAll | simulation/scratch/third.cc:441-475 | looking at one neighbour keeps the whole invariant of the search: queue order, distances, path lists, next-hop lists |
| Exploration.PathsAtEnd | simulation/scratch/third.cc:430-477 | when the queue is used up, the lists are exactly the minimum-hop paths over up links with switches between the ends, each once |
| Exploration.HopsAtEnd | simulation/scratch/third.cc:450-473 | when the queue is used up, the next hops gained are exactly the last stops before each node on its minimum-hop paths, without duplicates |
| Routing.SelectBest | simulation/scratch/third.cc:487-501 | least delay, then largest bottleneck at that delay, with the transmission delay of one path that has both; when every delay exceeds the 64-bit maximum, that maximum and zeros |
| Routing.Network.VisitNeighbour | simulation/scratch/third.cc:441-475 | the loop over the paths of one node towards one neighbour does one step of the search specification |
| Routing.Network.ExpandNode | simulation/scratch/third.cc:432-476 | expanding one node keeps the search invariant, in whatever order its neighbours come |
| Routing.Network.EnumeratePaths | simulation/scratch/third.cc:425-477 | the search ends with all minimum-hop paths from the host and exact next hops; what is kept for other hosts does not change |
| Routing.Network.RecordBest | simulation/scratch/third.cc:479-507 | for every reached node the recorded figures are those of one minimum-hop path: the sum of its link delays, the sum of its transmission delays and its narrowest link; no other has a smaller delay, or the same and a wider bottleneck; other entries stay |
| Routing.Network.CalculateRoute | simulation/scratch/third.cc:411-508 | one run for one host: exact next hops towards it, these best figures, nothing else touched |
| Routing.Network.CalculateRoutes | simulation/scratch/third.cc:632-638 | after all hosts, next hops and figures are such for every host |
| Routing.Network.SetRoutingEntries | simulation/scratch/third.cc:643-671 | every table gains, after what it held, exactly the interface number of every next hop, in order |
| Routing.Network.SetUpRouting | simulation/scratch/third.cc:1544-1545 | from empty tables, set-up makes tables, next hops and figures consistent with the network |
| Routing.Network.TakeDownLink | simulation/scratch/third.cc:698-717 | one link goes down in both directions and everything is consistent with the smaller network again; for a link that is down or absent nothing changes |
| Routing.Network.StillConsistent | simulation/scratch/third.cc:699-702 | consistency depends on up links alone |
| NetGraph.MinHopInit | simulation/scratch/third.cc:441-475 | a minimum-hop path without its last stop is a minimum-hop path |
| NetGraph.MinHopSnoc | simulation/scratch/third.cc:441-475 | a minimum-hop path continued to a node one hop further away is a minimum-hop path |
| NetGraph.PredByDistance | simulation/scratch/third.cc:459-472 | the last stops before a node are exactly its up neighbours one hop closer that may forward |
| NetGraph.MeasureIsSum | simulation/scratch/third.cc:444-447 | the figures of a path are the sums over its links of delay and of 8 * payload * 10^9 / rate, and its narrowest link |
| RouteTheorems.BestExists | simulation/scratch/third.cc:487-501 | some minimum-hop path has a least delay and, at that delay, a largest bottleneck |
| RouteTheorems.BellmanLaw | simulation/scratch/third.cc:441-447 | figures are the best over all minimum-hop paths if and only if they satisfy the recurrence over the previous stops: enumerating paths computes what dynamic programming would |
| RouteTheorems.RecordedBellman | simulation/scratch/third.cc:479-507 | and the recorded delay and bandwidth of a node follow in this way from those recorded for the previous stops, as far as these fit into 64 bits |
| RouteTheorems.HopsByDistance | simulation/scratch/third.cc:450-473 | a next hop is exactly an up neighbour one hop closer to the host that is the host or a switch |
| RouteTheorems.HopsNonEmpty | simulation/scratch/third.cc:450-473 | a reached node has no next hop exactly if it is the destination |
| RouteTheorems.ForwardingReachesHost | simulation/scratch/third.cc:643-670 | whatever installed next hops are taken, a walk never comes back to a node, crosses only up links and switches, and ends at the host after exactly its distance |
| RouteTheorems.TablesReachHost | simulation/scratch/third.cc:643-670 | the same for a packet that follows any entries of the installed tables, in a consistent network whose ports lead to one neighbour each |
| RouteTheorems.DistancesNeverDecrease | simulation/scratch/third.cc:698-704 | with fewer links nothing gets closer |
| RouteTheorems.UnusedLinkChangesNothing | simulation/scratch/third.cc:698-704 | if no shortest path used the lost link, the shortest paths are the same |
| RouteTheorems.UnusedLinkKeepsHops | simulation/scratch/third.cc:698-717 | and so are the next hops and the distance |
| RouteTheorems.RunLeavesSurvivors | simulation/scratch/third.cc:698-702 | after any sequence of failures, in any order and with repetitions, the up links are those never taken down |
| RouteTheorems.TakeDownLinks | simulation/scratch/third.cc:698-717 | after taking down any sequence of links, in any order and with repetitions, tables and figures are consistent, the next hops are those computed from scratch for the surviving network, name no lost link, and no destination is closer than at the start |
| LeafSpine.IdsPartition | simulation/mix/config/combined_topology_generator.py:231-242 | the device ids lie below the announced total and no two devices share one |
| LeafSpine.IdsCover | simulation/mix/config/combined_topology_generator.py:231-242 | every id below the announced total belongs to a device |
| LeafSpine.LinksExact | simulation/mix/config/combined_topology_generator.py:376-431 | the emitted links are exactly those of the topology, each once, and how many they are |
| LeafSpine.HeaderAgrees | simulation/mix/config/combined_topology_generator.py:250-268 | the announced number of links is the emitted one if and only if there is no data centre, or twice the emitted host links of one equal twice its announced hosts plus what a mesh of all DCI switches has above one of one each; with as many hosts as fit the leaves: if and only if no data centre has a second DCI switch |
| LeafSpine.HeaderOff | simulation/mix/config/combined_topology_generator.py:250-268 | the numbers of the script, with two DCI switches in each data centre or with one host more, for which it is not |
| LeafSpine.LeafSpineTopologyGenerator.CalculateNodeCounts | simulation/mix/config/combined_topology_generator.py:231-248 | the counts and the first id of each layer |
| LeafSpine.LeafSpineTopologyGenerator.CalculateLinkCounts | simulation/mix/config/combined_topology_generator.py:250-268 | the announced number of links |
| LeafSpine.LeafSpineTopologyGenerator.GenerateSwitchIds | simulation/mix/config/combined_topology_generator.py:353-374 | the switch ids are one gapless range, and so are the DCI ids |
| LeafSpine.LeafSpineTopologyGenerator.GenerateIntraDcConnections | simulation/mix/config/combined_topology_generator.py:376-416 | the nested loops emit the link list of the specification |
| LeafSpine.LeafSpineTopologyGenerator.GenerateDciInterconnections | simulation/mix/config/combined_topology_generator.py:418-433 | the full mesh of DCI switches, each pair once |
| LeafSpine.LeafSpineTopologyGenerator.GenerateTopologyContent | simulation/mix/config/combined_topology_generator.py:270-303 | the whole file: header (of three numbers without DCI switches), switch ids, links |
| LeafSpineRoutes.NoShortcut | simulation/mix/config/combined_topology_generator.py:376-431 | no path in a generated topology is shorter than the hop count of its ends |
| LeafSpineRoutes.RouteIsShortest | simulation/mix/config/combined_topology_generator.py:376-431 | the route over any choice of spines has the fewest hops |
| LeafSpineRoutes.ShortestPaths | simulation/mix/config/combined_topology_generator.py:376-431 | the minimum-hop paths between two hosts are exactly the routes, one for each choice of spines: 2 hops on one leaf, 4 in one data centre, 7 between two |
| LeafSpineRoutes.ReachedIfSuitable | simulation/mix/config/combined_topology_generator.py:376-431 | two hosts reach each other if and only if they hang on one leaf, or there are spines and, between two data centres, DCI switches |
| LeafSpineRoutes.ShortestPathCount | simulation/mix/config/combined_topology_generator.py:376-431 | there are 1, S or S * S of them, for S spines per data centre |
| LeafSpineRoutes.EnumeratedPathCount | simulation/scratch/third.cc:425-477 | the route computation lists that many paths between two hosts, each of that length |
| LeafSpineRoutes.BuiltRealises | simulation/scratch/third.cc:1344-1351 | a network with the announced nodes and the emitted links in both directions exists and is valid |
| SimpleTopology.HeaderAgrees | simulation/mix/config/combined_topology_generator.py:89-99 | the announced number of links is the emitted one if and only if there is no data centre, or one switch and at most one DCI switch in each, or one data centre with two DCI switches and no other switch |
| SimpleTopology.HeaderOff | simulation/mix/config/combined_topology_generator.py:89-99 | two data centres with two switches each, for which it is not |
| SimpleTopology.EndsKnown | simulation/mix/config/combined_topology_generator.py:184-221 | every emitted link joins announced nodes if and only if there is no data centre or there are DCI switches |
| SimpleTopology.EndUnknown | simulation/mix/config/combined_topology_generator.py:184-206 | a data centre without DCI switch, and the link that leads to an unknown id |
| SimpleTopology.SimpleTopologyGenerator.CalculateNodeCounts | simulation/mix/config/combined_topology_generator.py:72-87 | the counts and the first id of each layer |
| SimpleTopology.SimpleTopologyGenerator.GenerateIntraDcConnections | simulation/mix/config/combined_topology_generator.py:184-206 | the loops emit the link list of the specification |
| SimpleTopology.SimpleTopologyGenerator.GenerateDciInterconnections | simulation/mix/config/combined_topology_generator.py:208-221 | and the full mesh of DCI switches |
| SimpleTopology.SimpleTopologyGenerator.GenerateTopologyContent | simulation/mix/config/combined_topology_generator.py:101-131 | the whole file: the header with all its counts, the ids of one switch and one DCI switch of each data centre, and the links |
| Flows.LoopKeepsInv | simulation/scratch/third.cc:219-243 | the loop of ScheduleFlowInputs keeps the accounting, stops only at a flow that is not due, and installs at least the flow it was woken for |
| Flows.FireKeepsInv | simulation/scratch/third.cc:214-255 | one call keeps the invariant and installs at least one flow |
| Flows.FinishKeepsInv | simulation/scratch/third.cc:287-293 | a finishing flow keeps the invariant |
| Flows.SetUpInv | simulation/scratch/third.cc:1677-1686 | reading the first line establishes the invariant, also when there is none |
| Flows.RunKeepsInv | simulation/scratch/third.cc:197-294 | every state of every run keeps the invariant |
| FlowTheorems.FlowsAccounted | simulation/scratch/third.cc:214-255 | installed flows, the index and the scheduled counter agree and are the beginning of the file; completed <= scheduled <= flow_num <= declared |
| FlowTheorems.FlowNumShrinks | simulation/scratch/third.cc:197-205 | flow_num shrinks only to the number of lines that could be read, and never to a number of flows that have finished |
| FlowTheorems.StoppedOnce | simulation/scratch/third.cc:287-293 | the simulation is stopped if and only if some flow was installed, nothing is left to install and all have finished; and at most once |
| FlowTheorems.NothingToRead | simulation/scratch/third.cc:197-205 | a file without a readable line: nothing ever happens, and the stop never comes |
| FlowTheorems.RestMeansAllDone | simulation/scratch/third.cc:214-293 | when nothing can happen any more, all readable lines were installed and finished, and the stop has fired unless there was none |
| FlowTheorems.InstalledOnTime | simulation/scratch/third.cc:215-219 | in any file, a flow is installed at the latest start time up to its line or at most a nanosecond before; calls <= installed flows |
| FlowTheorems.SortedInstalledOnTime | simulation/scratch/third.cc:215-219 | in a file ordered by start time, that is its own start time |
| FlowTheorems.CallsInstall | simulation/scratch/third.cc:245-249 | every call installs a flow, and the branch for a start time that has passed is never taken |
| FlowTheorems.TriplesDistinct | simulation/scratch/third.cc:221-221 | source, destination and 16-bit port tell all flows apart if and only if no pair of nodes has more than 65536 flows |
| FlowTheorems.OneFlowTooMany | simulation/scratch/third.cc:221-221 | 65537 flows of one pair, two of which are not told apart once all are installed |
| FlowSimulation.Simulation.constructor | simulation/scratch/third.cc:1659-1686 | port numbers, first line and first event |
| FlowSimulation.Simulation.ReadFlowInput | simulation/scratch/third.cc:197-211 | the next line becomes current, or flow_num shrinks |
| FlowSimulation.Simulation.ScheduleFlowInputs | simulation/scratch/third.cc:214-255 | the loop does what the specification of one call says |
| FlowSimulation.Simulation.QpFinish | simulation/scratch/third.cc:287-293 | the completed counter and the stop |
| FlowSimulation.InitialPorts | simulation/scratch/third.cc:1659-1666 | 10000 for every pair of hosts and nothing else |
| TrafficGen.PopAndPush | traffic_gen/traffic_gen_only_for_interDC.py:132-158 | ends after the turns that the gaps decide: in order of time and host, every host at the times at which it is due until it is due again only after the end. Exactly the turns whose host is due again by the end are written, in order, with priority 3, port 100 and the size that was drawn for them, at least 1. Fails exactly if one of these has no destination |
| TrafficGen.OneFile | traffic_gen/traffic_gen_only_for_interDC.py:132-158 | the gaps decide all turns, and so the times and sources of the file |
| TrafficGen.LastArrivalNotWritten | traffic_gen/traffic_gen_only_for_interDC.py:134-140 | a plan with an arrival before the end, for which no flow is written |
| TrafficGen.Finished | traffic_gen/traffic_gen_only_for_interDC.py:132-158 | from every state of the loop, if a positive gap always comes again, there are finitely many turns to the end, one more per host than are written |
| TrafficGen.GenerateInterDc | traffic_gen/traffic_gen_only_for_interDC.py:132-158 | these turns; the destination is the drawn host of the drawn one of the other data centres; with a single data centre an error exactly if a flow was to be written |
| TrafficGen.GenerateTwoDcs | traffic_gen/traffic_gen_only_for_interDC_specify2dc.py:134-163 | the same for the hosts of one given data centre, with the drawn host of another as destination; refused exactly if they are equal or unknown |
| TrafficGen.GenerateAny | traffic_gen/traffic_gen.py:120-137 | the variant that looks at the heap first and replaces its top has the same turns and writes the same of them; every turn draws until it is not its own host, and that is the destination |
| TrafficGen.PickOther | traffic_gen/traffic_gen.py:126-128 | the first draw that is not the source |
| TrafficGen.TurnKeepsInv | traffic_gen/traffic_gen_only_for_interDC.py:134-158 | a turn keeps one heap entry per host that has not left, due no earlier than every turn so far; its host goes back and its flow is written exactly if it is due again by the end |
| TrafficGen.GeneratedFileRuns | simulation/scratch/third.cc:214-255 | a simulation of a generated file reads all of it, installs every flow within the nanosecond before its start in no more calls than flows, and finishes and stops |
| CustomRand.TestCdf | traffic_gen/custom_rand.py:5-13 | accepts exactly strictly increasing lists from 0 to 100 percent |
| CustomRand.PercentileOfQuantile | traffic_gen/custom_rand.py:31-44 | every percentage has a size in the range, and that size has that percentage |
| CustomRand.QuantileOfPercentile | traffic_gen/custom_rand.py:31-44 | every size in the range has a percentage, and that percentage has that size |
| CustomRand.QuantileGrows | traffic_gen/custom_rand.py:39-44 | quantiles grow strictly |
| CustomRand.PercentileGrows | traffic_gen/custom_rand.py:31-38 | percentages grow strictly |
| CustomRand.OutsideRange | traffic_gen/custom_rand.py:31-44 | outside of the range: -1 for negative sizes and those above the last, less than 0 percent below the first, and nothing at more than 100 percent |
| CustomRand.IntegralGrowth | traffic_gen/custom_rand.py:45-56 | the integral from one percentage to a later one lies between the two quantiles times the width / 100 |
| CustomRand.IntegralIsMean | traffic_gen/custom_rand.py:45-56 | the integral up to 100 percent is the mean |
| CustomRand.GetAvg | traffic_gen/custom_rand.py:19-27 | the loop computes the area under the quantiles |
| CustomRand.GetIntegralY | traffic_gen/custom_rand.py:45-56 | the loop computes the integral |
| FlowBins.HalfwayBetween | traffic_gen/flow_bins.py:43-45 | the percentage of half a size lies strictly between the next percentage and the present one |
| FlowBins.Next | traffic_gen/flow_bins.py:36-49 | one turn lowers the percentage, keeps the size at the floor of its quantile, and never falls below half of a size above 1000 |
| FlowBins.HalvingsIsLog | traffic_gen/flow_bins.py:43-45 | the number of halvings is the binary logarithm of the size over 1000 |
| FlowBins.Bins | traffic_gen/flow_bins.py:28-50 | ends within 100 turns plus the halvings of the largest size, never in the error branch; the bins, strictly rising, are exactly the positive sizes at the percentages that the loop comes by from 100 down to 1 or to size 0: each one below the last or, if the size would fall below half of one above 1000, that of the half. The largest size and, if positive, that at one percent are bins |
| Scheduler.StepKeepsInv | simulation/.waf-1.7.11-edc6ccb516c5e3f9b892efc9f53a610f/waflib/Runner.py:71-197 | every step of the producer or of a worker keeps the invariant: no task in two places, the counter, the history |
| Scheduler.RunKeepsInv | simulation/.waf-1.7.11-edc6ccb516c5e3f9b892efc9f53a610f/waflib/Runner.py:71-197 | and so does every interleaving |
| SchedulerTheorems.CountIsInFlight | simulation/.waf-1.7.11-edc6ccb516c5e3f9b892efc9f53a610f/waflib/Runner.py:105-111 | count is the number of tasks queued, held by a worker, or returned and not collected |
| SchedulerTheorems.InFlightBounded | simulation/.waf-1.7.11-edc6ccb516c5e3f9b892efc9f53a610f/waflib/Runner.py:71-75 | at most ten tasks for each job, and one, are in flight |
| SchedulerTheorems.ProcessedAtMostOnce | simulation/.waf-1.7.11-edc6ccb516c5e3f9b892efc9f53a610f/waflib/Task.py:111-145 | in no run is a task handed over twice, or processed twice, by a worker or by the producer that is the only job |
| SchedulerTheorems.StatusIsFinal | simulation/.waf-1.7.11-edc6ccb516c5e3f9b892efc9f53a610f/waflib/Task.py:111-145 | hasrun, once set, never changes |
| SchedulerTheorems.PrerequisitesFirst | simulation/.waf-1.7.11-edc6ccb516c5e3f9b892efc9f53a610f/waflib/Task.py:283-286 | when a task starts, everything it must run after has run, for good |
| SchedulerTheorems.GroupsInOrder | simulation/.waf-1.7.11-edc6ccb516c5e3f9b892efc9f53a610f/waflib/Runner.py:97-100 | when a group is pulled, a task of an earlier group has not run if and only if a worker handed it back after the build was stopped |
| SchedulerTheorems.GroupPulledTooEarly | simulation/.waf-1.7.11-edc6ccb516c5e3f9b892efc9f53a610f/waflib/Runner.py:97-100 | a run with two workers where that happens |
| SchedulerTheorems.DeadlockIsReal | simulation/.waf-1.7.11-edc6ccb516c5e3f9b892efc9f53a610f/waflib/Runner.py:77-93 | when the deadlock error is raised nothing is in flight and every frozen task still waits for one that has not run |
| SchedulerTheorems.DeadlockIsCircular | simulation/.waf-1.7.11-edc6ccb516c5e3f9b892efc9f53a610f/waflib/Runner.py:77-93 | and waits for another frozen one, if prerequisites lie in the same or earlier groups |
| SchedulerTheorems.NeverDeadlocks | simulation/.waf-1.7.11-edc6ccb516c5e3f9b892efc9f53a610f/waflib/Runner.py:77-93 | with such prerequisites and no circle among them the error is never raised, whatever the order of postponement |
| SchedulerTheorems.NeverStuck | simulation/.waf-1.7.11-edc6ccb516c5e3f9b892efc9f53a610f/waflib/Runner.py:146-197 | until the producer has ended, it or a worker can act |
| SchedulerTheorems.OneJobBuildsOnSuccess | simulation/.waf-1.7.11-edc6ccb516c5e3f9b892efc9f53a610f/waflib/Runner.py:112-115 | with one job and a build that stops at errors, a task starts only on prerequisites that succeeded, were skipped or were done before |
| SchedulerEnds.StepLowers | simulation/.waf-1.7.11-edc6ccb516c5e3f9b892efc9f53a610f/waflib/Runner.py:71-197 | every step of the producer or of a worker lowers a rank of nine numbers |
| SchedulerEnds.NoEndlessRun | simulation/.waf-1.7.11-edc6ccb516c5e3f9b892efc9f53a610f/waflib/Runner.py:146-197 | with any number of jobs no run goes on for ever, whatever the interleaving and the order of postponement |
| SchedulerEnds.NothingLeftBehind | simulation/.waf-1.7.11-edc6ccb516c5e3f9b892efc9f53a610f/waflib/Runner.py:194-196 | when the producer has left its loop, the build was stopped, or nothing is in flight, postponed or outstanding and every task has run |
| SchedulerEnds.FurtherTasksRun | simulation/.waf-1.7.11-edc6ccb516c5e3f9b892efc9f53a610f/waflib/Runner.py:101-111 | at the end of a build that was not stopped the further tasks of every task that was handed over have run too |
| OneJob.Parallel.GetOut | simulation/.waf-1.7.11-edc6ccb516c5e3f9b892efc9f53a610f/waflib/Runner.py:105-111 | collects one result as the machine does |
| OneJob.Parallel.RefillTaskList | simulation/.waf-1.7.11-edc6ccb516c5e3f9b892efc9f53a610f/waflib/Runner.py:71-100 | comes back with work, with nothing left, or with the deadlock, along steps of the machine |
| OneJob.Parallel.Start | simulation/.waf-1.7.11-edc6ccb516c5e3f9b892efc9f53a610f/waflib/Runner.py:146-197 | with one job the loops themselves end; a deadlock is reported only if prerequisites are circular or reach outside; unless stopped by an error everything has run, and reliable tasks never stop it |
| BuildOrder.SetFileConstraints | simulation/.waf-1.7.11-edc6ccb516c5e3f9b892efc9f53a610f/waflib/Task.py:497-508 | a task is to run after another exactly if it reads what the other writes, besides what held before |
| BuildOrder.SetPrecedenceConstraints | simulation/.waf-1.7.11-edc6ccb516c5e3f9b892efc9f53a610f/waflib/Task.py:487-530 | for some order of the dictionary: a task is to run after those of a class that comes before its own; when two classes claim each other, the one looked at first wins; where only one can, what it claims decides: it makes an extension that the other takes, is named in its after, or names it in its before |
| BuildOrder.Directions | simulation/.waf-1.7.11-edc6ccb516c5e3f9b892efc9f53a610f/waflib/Task.py:487-496 | five classes, with the direction that each of the three claims gives |
| BuildOrder.OrderMattersOnClash | simulation/.waf-1.7.11-edc6ccb516c5e3f9b892efc9f53a610f/waflib/Task.py:509-530 | all orders of the dictionary give the same order of classes if and only if no two different classes each claim to come before the other |
| BuildOrder.TableMattersOnClash | simulation/.waf-1.7.11-edc6ccb516c5e3f9b892efc9f53a610f/waflib/Task.py:509-530 | and the same run_after if and only if all tasks of such classes run after each other already |
| BuildOrder.EitherWay | simulation/.waf-1.7.11-edc6ccb516c5e3f9b892efc9f53a610f/waflib/Task.py:509-530 | two tasks of such classes, each of which runs after the other in one of the two orders, and not in the other |
| BuildOrder.BuildIterator | simulation/.waf-1.7.11-edc6ccb516c5e3f9b892efc9f53a610f/waflib/Build.py:403-425 | the groups that have tasks, in turn, each with exactly its constraints, for some order of its classes |
| BuildOrder.BuildMattersOnClash | simulation/.waf-1.7.11-edc6ccb516c5e3f9b892efc9f53a610f/waflib/Build.py:413-423 | the constraints of a build are the same for all orders of the dictionaries if and only if in no group a task of one of two clashing classes reads nothing that one of the other writes |
| BuildOrder.DeadlockHasCircle | simulation/.waf-1.7.11-edc6ccb516c5e3f9b892efc9f53a610f/waflib/Runner.py:77-93 | the deadlock error means a circle of prerequisites |
| BuildOrder.BuildDeadlocksOnCircles | simulation/.waf-1.7.11-edc6ccb516c5e3f9b892efc9f53a610f/waflib/Build.py:413-423 | a build with the constraints of its groups alone can deadlock only on a circle of shared files and classes |
| Cycles.IsRotated | simulation/bindings/python/rad_util.py:761-775 | whether one sequence is a rotation of the other |
| Cycles.ReachedCycleRecorded | simulation/bindings/python/topsort.py:346-385 | a cycle that a path from an explored start meets is recorded, so that skipping met start nodes loses none |
| Cycles.Visit | simulation/bindings/python/topsort.py:361-385 | one child closes a cycle, which is recorded unless known, or extends the path |
| Cycles.Explore | simulation/bindings/python/topsort.py:351-385 | the stack runs empty, and then every path from the start has been extended in every way |
| Cycles.FindCycles | simulation/bindings/python/topsort.py:343-385 | every simple cycle is yielded exactly once up to rotation, and nothing else |
| Glob.MatchStep | simulation/.waf-1.7.11-edc6ccb516c5e3f9b892efc9f53a610f/waflib/Node.py:310-324 | the first name moves the meaning of a pattern to what one step of the automaton leaves of it |
| Glob.AutomatonMatches | simulation/.waf-1.7.11-edc6ccb516c5e3f9b892efc9f53a610f/waflib/Node.py:310-324 | the automaton reaches the empty pattern exactly on the paths that match |
| Glob.CrashIff | simulation/.waf-1.7.11-edc6ccb516c5e3f9b892efc9f53a610f/waflib/Node.py:314-318 | some path makes the automaton call a method of a string if and only if two adjacent ** can be reached |
| Glob.AdjacentStarsCrash | simulation/.waf-1.7.11-edc6ccb516c5e3f9b892efc9f53a610f/waflib/Node.py:314-318 | the pattern **/** does so on every first name |
| Glob.PlainNeverCrashes | simulation/.waf-1.7.11-edc6ccb516c5e3f9b892efc9f53a610f/waflib/Node.py:310-324 | without adjacent ** no path does |
| Glob.AdjacentStarsFail | simulation/.waf-1.7.11-edc6ccb516c5e3f9b892efc9f53a610f/waflib/Node.py:253-334 | with the pattern **/** the walk fails in every non-empty directory |
| Glob.Filtre | simulation/.waf-1.7.11-edc6ccb516c5e3f9b892efc9f53a610f/waflib/Node.py:310-324 | one step of all patterns; fails exactly on adjacent ** at the head of one |
| Glob.Accept | simulation/.waf-1.7.11-edc6ccb516c5e3f9b892efc9f53a610f/waflib/Node.py:325-330 | include and exclude patterns step together, and an exclusion empties the includes |
| Glob.AntIter | simulation/.waf-1.7.11-edc6ccb516c5e3f9b892efc9f53a610f/waflib/Node.py:253-282 | finds below a directory exactly what is there, within the depth, included, and not below or itself anything excluded, each once: pruning loses nothing. It fails exactly if it comes to a non-empty directory where two adjacent ** head a pattern |
| Glob.AntGlob | simulation/.waf-1.7.11-edc6ccb516c5e3f9b892efc9f53a610f/waflib/Node.py:283-334 | the same for the whole call, to a depth of 26 names, for all patterns; without adjacent ** it never fails |
| Topsort.CountParents | simulation/bindings/python/topsort.py:77-90 | numbers of parents and lists of children, repetitions counted |
| Topsort.TakeNext | simulation/bindings/python/topsort.py:97-106 | the next element of the answer has no parent left, and all its children are still there |
| Topsort.Topsort | simulation/bindings/python/topsort.py:77-112 | all elements, each once, parents before children; an error if and only if there is a cycle |
| Topsort.LevelIsDepth | simulation/bindings/python/topsort.py:203-205 | what has no parent left after k levels is exactly what the longest incoming walk of k steps leads to |
| Topsort.TopsortLevels | simulation/bindings/python/topsort.py:203-232 | level k holds the elements whose longest incoming walk has k steps, no level is missing, and an error if and only if there is a cycle |
| MethodOrder.BeforeMethod | simulation/.waf-1.7.11-edc6ccb516c5e3f9b892efc9f53a610f/waflib/TaskGen.py:185-192 | adds the precedence and keeps the lists free of duplicates |
| MethodOrder.AfterMethod | simulation/.waf-1.7.11-edc6ccb516c5e3f9b892efc9f53a610f/waflib/TaskGen.py:194-201 | likewise |
| MethodOrder.DeleteKeepsReached | simulation/.waf-1.7.11-edc6ccb516c5e3f9b892efc9f53a610f/waflib/TaskGen.py:84-97 | each turn of the worklist pushes exactly what nothing waits for any more, once |
| MethodOrder.Backward | simulation/.waf-1.7.11-edc6ccb516c5e3f9b892efc9f53a610f/waflib/Tools/ccroot.py:159-184 | all keys; an error if and only if the precedences are circular; a key that had to wait comes out as often as the list names it whose owner stands first in the answer (where it stands last), every other once; where each stands last the order keeps every precedence, and so does the whole if each comes out once, as from duplicate-free lists |
| MethodOrder.OnceIfFreedOnce | simulation/.waf-1.7.11-edc6ccb516c5e3f9b892efc9f53a610f/waflib/Tools/ccroot.py:176-181 | each key comes out once if and only if no such list names it twice |
| MethodOrder.ListedTwice | simulation/.waf-1.7.11-edc6ccb516c5e3f9b892efc9f53a610f/waflib/Tools/ccroot.py:176-181 | a key that all lists with it name twice comes out twice |
| MethodOrder.TwoAgain | simulation/.waf-1.7.11-edc6ccb516c5e3f9b892efc9f53a610f/waflib/Tools/ccroot.py:176-181 | two keys where that happens |
| MethodOrder.PostOrder | simulation/.waf-1.7.11-edc6ccb516c5e3f9b892efc9f53a610f/waflib/TaskGen.py:68-100 | the same for the methods of a task generator and any table, restricted to them |
| UseOrder.TaskGen.UseRec | simulation/.waf-1.7.11-edc6ccb516c5e3f9b892efc9f53a610f/waflib/Tools/ccroot.py:113-143 | meets what a name leads to, and enters every task generator it meets with everything that uses it |
| UseOrder.ProcessUse | simulation/.waf-1.7.11-edc6ccb516c5e3f9b892efc9f53a610f/waflib/Tools/ccroot.py:147-184 | all task generators that the names lead to, each, where it stands last, before those it uses; each once if none says a name twice; an error if and only if they use each other in a circle |
| Conditionals.PartsRun | simulation/.waf-1.7.11-edc6ccb516c5e3f9b892efc9f53a610f/waflib/Tools/c_preproc.py:530-586 | on a well-nested stream, from any stack, the marks below decide whether anything happens, and what happens is the meaning of the nested groups |
| Conditionals.StackIsMeaning | simulation/.waf-1.7.11-edc6ccb516c5e3f9b892efc9f53a610f/waflib/Tools/c_preproc.py:530-586 | from an empty stack: exactly the directives whose enclosing groups are all taken act, and the definitions come out the same |
| Conditionals.AtMostOneBranch | simulation/.waf-1.7.11-edc6ccb516c5e3f9b892efc9f53a610f/waflib/Tools/c_preproc.py:549-576 | a group comes to the meanings of its visited branches; at most one is visited if and only if its #if has a value or there is no other branch; without a value all are |
| Conditionals.BothBranchesAct | simulation/.waf-1.7.11-edc6ccb516c5e3f9b892efc9f53a610f/waflib/Tools/c_preproc.py:547-550 | an #if that cannot be evaluated, both of whose branches act |
| Conditionals.IfdefActs | simulation/.waf-1.7.11-edc6ccb516c5e3f9b892efc9f53a610f/waflib/Tools/c_preproc.py:551-554 | a directive below #ifdef acts exactly if the name is defined |
| Conditionals.IfndefActs | simulation/.waf-1.7.11-edc6ccb516c5e3f9b892efc9f53a610f/waflib/Tools/c_preproc.py:555-558 | below #ifndef exactly if it is not |
| Conditionals.IfActs | simulation/.waf-1.7.11-edc6ccb516c5e3f9b892efc9f53a610f/waflib/Tools/c_preproc.py:547-550 | below #if unless the expression is false |
| Conditionals.DefineActs | simulation/.waf-1.7.11-edc6ccb516c5e3f9b892efc9f53a610f/waflib/Tools/c_preproc.py:575-579 | #define gives the name its line and touches no other |
| Conditionals.UndefActs | simulation/.waf-1.7.11-edc6ccb516c5e3f9b892efc9f53a610f/waflib/Tools/c_preproc.py:580-583 | after #undef the name is not defined; no other is touched |
| Conditionals.OtherActs | simulation/.waf-1.7.11-edc6ccb516c5e3f9b892efc9f53a610f/waflib/Tools/c_preproc.py:559-565 | the other directives leave the definitions as they are |
| Conditionals.GuardActsOnce | simulation/.waf-1.7.11-edc6ccb516c5e3f9b892efc9f53a610f/waflib/Tools/c_preproc.py:549-583 | below an include guard everything acts the first time and nothing the second |
| Conditionals.CParser.Handle | simulation/.waf-1.7.11-edc6ccb516c5e3f9b892efc9f53a610f/waflib/Tools/c_preproc.py:538-586 | one line does one step of the stack machine, and what fails changes nothing |
| Conditionals.CParser.Start | simulation/.waf-1.7.11-edc6ccb516c5e3f9b892efc9f53a610f/waflib/Tools/c_preproc.py:530-589 | the loop runs the machine over all lines |
| ConfigSets.ConfigSet.GetItem | simulation/.waf-1.7.11-edc6ccb516c5e3f9b892efc9f53a610f/waflib/ConfigSet.py:29-37 | the first table of the chain that has the variable decides |
| ConfigSets.ConfigSet.Derive | simulation/.waf-1.7.11-edc6ccb516c5e3f9b892efc9f53a610f/waflib/ConfigSet.py:57-60 | a derived environment reads as its parent |
| ConfigSets.ConfigSet.GetMergedDict | simulation/.waf-1.7.11-edc6ccb516c5e3f9b892efc9f53a610f/waflib/ConfigSet.py:107-117 | holds exactly what can be read, with what reading gives |
| ConfigSets.MergedIsLook | simulation/.waf-1.7.11-edc6ccb516c5e3f9b892efc9f53a610f/waflib/ConfigSet.py:107-117 | merging the tables oldest first gives what the chain gives |
| ConfigSets.ConfigSet.Detach | simulation/.waf-1.7.11-edc6ccb516c5e3f9b892efc9f53a610f/waflib/ConfigSet.py:61-71 | every read stays the same, without a parent and without a shared list |
| ConfigSets.ConfigSet.AppendValue | simulation/.waf-1.7.11-edc6ccb516c5e3f9b892efc9f53a610f/waflib/ConfigSet.py:91-95 | the list grows at its end; no other read, and no table or list of an ancestor, changes |
| ConfigSets.ConfigSet.PrependValue | simulation/.waf-1.7.11-edc6ccb516c5e3f9b892efc9f53a610f/waflib/ConfigSet.py:96-99 | the list grows at its front, likewise |
| ConfigSets.ConfigSet.AppendUnique | simulation/.waf-1.7.11-edc6ccb516c5e3f9b892efc9f53a610f/waflib/ConfigSet.py:100-106 | only missing values are added, likewise |
| ConfigSets.ConfigSet.Stash | simulation/.waf-1.7.11-edc6ccb516c5e3f9b892efc9f53a610f/waflib/ConfigSet.py:145-150 | a copy that shares no list; the old table is put aside |
| ConfigSets.ConfigSet.Revert | simulation/.waf-1.7.11-edc6ccb516c5e3f9b892efc9f53a610f/waflib/ConfigSet.py:151-152 | the table that was put aside last comes back |
| ConfigSets.ConfigSet.StashEditRevert | simulation/.waf-1.7.11-edc6ccb516c5e3f9b892efc9f53a610f/waflib/ConfigSet.py:145-152 | stash, any edits with matching stashes and reverts between them, revert: the exact table from before, its lists unchanged |

## Left out

- Exploration.PathsAtEnd: neighbours are visited in any order, as pointers order them in the source.
- Routing.SelectBest: delays and rates are natural numbers, so sums do not wrap at 64 bits; only the start value of the minimum is the 64-bit maximum.
- Routing.Network.SetRoutingEntries: destinations are node ids instead of addresses, and the table of a node is a list per destination; the route file is not written.
- Routing.Network.TakeDownLink: taking the devices down and redistributing queue pairs are library calls.
- LeafSpineRoutes.ShortestPaths: the network is any whose up links are the emitted ones in both directions; reading the file and creating devices is not modelled.
- LeafSpine.LeafSpineTopologyGenerator.GenerateTopologyContent: rates, latencies and comment lines, here and in the simple topology.
- Flows.RunKeepsInv: an installed flow finishes at most once; receive-side reference counts, window sizes and completion times in the result file are not modelled.
- FlowTheorems.TriplesDistinct: the assertion that both ends are hosts is compiled out in optimized builds; without it ports of other pairs start at 0, which is modelled.
- TrafficGen.PopAndPush: ends provided that a positive gap always comes again in the stream of gaps; both generators between data centres share this loop, and the heap is modelled by what `heapq` promises.
- TrafficGen.GenerateAny: ends provided that hosts other than any given one are drawn again and again; with a single host the source redraws for ever.
- CustomRand.PercentileOfQuantile: real numbers instead of floating point, and a first size that is not negative.
- FlowBins.Bins: printing; a bin below the first size of the distribution would be shown with a percentage below 0.
- Scheduler.RunKeepsInv: what a task does is open, but `post_run` never leaves `hasrun` unset, and the list of errors is kept without the verbosity switches.
- OneJob.Parallel.Start: one job; with more the loops are those of the state machine, whose runs end too.
- SchedulerTheorems.NeverDeadlocks: "no circle" is given as a rank that grows along prerequisites; `DeadlockHasCircle` shows the circle itself.
- BuildOrder.SetPrecedenceConstraints: classes are compared by their attributes instead of a hash of them.
- Glob.AntGlob: what one component matches is a parameter, so the translation of a pattern to regular expressions is not modelled; nor are evicted nodes and remembered directories.
- Topsort.TopsortLevels: the generator is run to its end.
- MethodOrder.PostOrder: names are numbers, in the order in which they are sorted; collecting the methods of the features and calling them is not modelled.
- UseOrder.ProcessUse: link flags, include paths and posting the used generators.
- Conditionals.StackIsMeaning: lines of included files are not pushed; evaluation of expressions and names of macros are parameters; lower-case directives.
- ConfigSets.ConfigSet.StashEditRevert: loading and storing files, and values other than strings and lists of strings; lists are not shared between variables, and no value is None.
- The device and channel layer, queue management, statistics, plotting, compiler detection and batch scripts: library calls and input or output.
- The cost function of the DCI switches: dci-switch-node.cc is not part of this model.
