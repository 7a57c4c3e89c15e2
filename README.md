# faas4fogsim core in Dafny

This project models the deterministic core of faas4fogsim, a discrete-time
simulator of function-as-a-service placement on a fog topology. In that
topology, edge nodes sit below intermediary nodes, which sit below one
cloud node. Each compute node has three parts:

- a cache of executables with a storage budget, managed by bid-based
  eviction (the cheapest store price goes first);
- a per-time-step utilization array with a parallel-request capacity;
- counters for processed and pushed-up requests, and its processing
  earnings.

A request offered to a node is run there in either of two cases:

- the node is the cloud;
- the node caches the executable, the start slot has room, and
  `timestamp + execLatency` is still below the simulation duration.

Otherwise the request is charged an uplink delay and offered to the parent
at the delayed time. A node without a parent drops it. The simulator works
in five steps (Simulator.kt:147-155 and the summary after them):

1. It builds the topology: one cloud, intermediaries and edge nodes, each
   connected to its parent.
2. It broadcasts executables to every node.
3. It files generated requests in a table keyed by timestamp and entry node.
4. It sweeps that table in ascending timestamp order, offering each list to
   its node.
5. It sums the request latencies at the end.

The model has six modules, one per concern:

- `Types`: node tiers, `Option`, the 32-bit sentinels and integer sums.
- `Requests` (ExecRequest.kt): the immutable `Executable` value. `ExecRequest`
  is a class whose `Execute` and `PushTowardsCloud` update its fields in
  place. Each method is proved against a value-level function on
  `RequestState` (`Executed`, `Pushed`) and keeps the field invariant
  `Consistent`.
- `Ordering`: the stable `sortedBy` that both `offerRequests` of
  ComputeNode.kt and `defineRequests` of Simulator.kt rely on.
- `Admission`: the node-local rules of ComputeNode.kt stated on values:
  - the eviction loop (`EvictFrom`) and placement (`Place`);
  - `checkUtilization` (`HasCapacity`) and the admission test (`Admits`);
  - the utilization update of `processRequest` (`Process`);
  - the escalation along the chain of parents (`Route`, `RouteRequest`,
    `Hops`) and a batch of such offers (`RouteAll`).
- `Nodes` (ComputeNode.kt): the `ComputeNode` class. Its fields are updated
  in place, and the utilization is an `array<int>`. A ghost `Above` lists the
  ancestors and gives the recursion through `parentNode` its termination
  measure. Every method is proved against the `Admission` functions on the
  node's view: `OfferExecutable` against `Place`, `OfferRequest` against
  `Route` and `RouteRequest` over the node's chain, `OfferRequests` against
  `RouteAll`. `GetRequestStats` and `GetEarningStats` are the two pure
  reads; the contracts of `OfferRequests` and `OfferExecutable` are stated
  through them.
- `Simulation` (Simulator.kt): the `Simulator` class with its tier sets, its
  executable registry and its request table
  (`map<int, map<ComputeNode, seq<ExecRequest>>>`). It also holds the table
  functions `Added` and `AddAll`, the timestamp sweep, the broadcast and the
  summary loop.

Randomness enters only as parameters:

- `withVariance` results are a `jitter` function giving each request the
  values drawn at the nodes it visits: the uplink delay where it is pushed,
  the execution latency where it runs.
- The draws of `defineRequests` are a sequence of `Draw` values.
- The sizes and prices of `defineExecutable` are its arguments.

Two behaviours of the code that a reader might expect otherwise, which the
model follows as written:

- A refused request is offered to the parent directly and recursively
  (ComputeNode.kt:69). The code does not re-file it in the table at its
  delayed timestamp, so the sweep never sees it again.
- The summary loop counts every filed request, executed or not
  (Simulator.kt:178-183). The code does not leave out the requests that were
  never executed, so their partial latencies enter the sum, the minimum and
  the maximum.

## Model

| member | source | states |
|---|---|---|
| Requests.ExecRequest.constructor | src/main/kotlin/ExecRequest.kt:5-10 | a fresh request has zero total latency, actual start equal to the planned start, node "not executed", no node type, not completed, and satisfies the field invariant |
| Requests.ExecRequest.Execute | src/main/kotlin/ExecRequest.kt:17-23 | adds the latency to the total, records node and type, sets completion, leaves the actual start and everything else alone, and keeps the invariant |
| Requests.ExecRequest.PushTowardsCloud | src/main/kotlin/ExecRequest.kt:29-33 | adds the delay to both total latency and actual start, changes no execution field, and keeps the invariant |
| Requests.PushedAllAccumulates | src/main/kotlin/ExecRequest.kt:29-33 | a series of pushes adds the sum of the delays to total latency and actual start and records the delays in order |
| Requests.InitialConsistent | src/main/kotlin/ExecRequest.kt:5-10 | the initial state satisfies the field invariant, with zero latency and actual start equal to planned start |
| Requests.PushedConsistent | src/main/kotlin/ExecRequest.kt:29-33 | a push preserves the field invariant |
| Requests.ExecutedConsistent | src/main/kotlin/ExecRequest.kt:17-23 | an execution preserves the field invariant |
| Requests.PendingDelay | src/main/kotlin/ExecRequest.kt:29-33 | while not executed, actualStart - plannedStart == totalLatency == the sum of the push delays |
| Requests.ExecutedLatency | src/main/kotlin/ExecRequest.kt:17-23 | after one execution, totalLatency is the push delays plus the execution latency, and is non-negative when they all are |
| Ordering.SortedByAscending | src/main/kotlin/Simulator.kt:72 | sortedBy yields ascending keys |
| Ordering.SortedByPermutation | src/main/kotlin/Simulator.kt:72 | sortedBy is a permutation of its input |
| Ordering.SortedByMembers | src/main/kotlin/Simulator.kt:72 | sortedBy neither adds nor loses an element |
| Ordering.SortedByStable | src/main/kotlin/Simulator.kt:72 | among elements sharing one key, sortedBy keeps the input order |
| Admission.CheapestIsFirstMinimum | src/main/kotlin/ComputeNode.kt:34 | the executable minByOrNull picks has the minimal store price, and it is the earliest cached among equals |
| Admission.EvictFrom | src/main/kotlin/ComputeNode.kt:33-39 | the loop stops when the new size fits within capacity, or with an empty cache and still no fit (the throw); no executable is created or lost in count |
| Admission.EvictMinimal | src/main/kotlin/ComputeNode.kt:33-37 | eviction stops as soon as the executable fits: nothing is evicted when it fits already, earlier evictions are kept in order, and just before the last eviction it still did not fit |
| Admission.EvictCheapestOnly | src/main/kotlin/ComputeNode.kt:33-37 | with executables paying 5, 10 and 20 filling the storage, offering one more unit evicts exactly the price-5 one and leaves room for the newcomer |
| Admission.EvictPermutation | src/main/kotlin/ComputeNode.kt:33-39 | kept plus evicted is exactly the original cache, as a multiset |
| Admission.EvictCheapestFirst | src/main/kotlin/ComputeNode.kt:33-37 | no evicted executable pays a higher store price than any kept one |
| Admission.EvictAccounting | src/main/kotlin/ComputeNode.kt:36 | eviction uncharges exactly the sizes it removes: used minus cached size is preserved |
| Admission.EvictStorePrices | src/main/kotlin/ComputeNode.kt:34-37 | store fees move from the cache to the evicted list without loss or gain |
| Admission.PlaceWithoutEviction | src/main/kotlin/ComputeNode.kt:33-41 | when the executable already fits nothing is evicted; it is added and its size charged |
| Admission.PlaceStores | src/main/kotlin/ComputeNode.kt:33-41 | with an accounted cache the executable is stored iff its size is within capacity; then it is cached, used storage stays within capacity, and (if it was new) used storage still equals the cached sizes |
| Admission.PlaceOversized | src/main/kotlin/ComputeNode.kt:33-35 | an executable larger than the capacity empties the cache (everything evicted) and is refused |
| Admission.PlaceCachedOvercounts | src/main/kotlin/ComputeNode.kt:40-41 | re-offering a cached executable when it fits without eviction leaves the set as it was but charges its size again |
| Admission.PlaceStorePrices | src/main/kotlin/ComputeNode.kt:96 | after storing a new executable the storage fees are the old ones minus the evicted ones plus the newcomer's |
| Admission.OccupyTotal | src/main/kotlin/ComputeNode.kt:88 | occupying [from, to) raises the utilization total by exactly to - from |
| Admission.AdmitsWithinCapacity | src/main/kotlin/ComputeNode.kt:77-80 | at a node other than the cloud, admission means the executable is cached, its nominal run ends before the horizon, and after processing the start slot is within the parallel capacity |
| Admission.LaterSlotMayOverflow | src/main/kotlin/ComputeNode.kt:79 | only the start slot is checked: a node with capacity one admits a run whose drawn latency carries it into a busy slot, which then holds two runs |
| Admission.RouteProcesses | src/main/kotlin/ComputeNode.kt:63 | at an admitting node, routing processes there with the drawn latency and leaves the ancestors untouched |
| Admission.RoutePushes | src/main/kotlin/ComputeNode.kt:64-69 | at a refusing node, routing counts one push and continues at the parent at timestamp + delay with the pushed request |
| Admission.RouteAt | src/main/kotlin/ComputeNode.kt:55-70 | the k nodes before the processing one each count one push, the k-th processes at the start plus the first k delays, the rest are unchanged |
| Admission.OneCounterPerOffer | src/main/kotlin/ComputeNode.kt:63-68 | each offer bumps exactly one of the node's two counters, processed iff the node admits the request |
| Admission.CloudStopsEscalation | src/main/kotlin/ComputeNode.kt:56-63 | a cloud node on the chain processes the request if no node below did: it never travels past the cloud |
| Admission.RouteRequestOutcome | src/main/kotlin/ComputeNode.kt:55-70 | the request is pushed with the first k drawn delays, then executed by the k-th node with the k-th drawn latency, or dropped at the top |
| Admission.RouteConsistent | src/main/kotlin/ComputeNode.kt:55-70 | routing keeps the request invariant; it ends executed iff some node on the chain admitted it, with exactly the delays of the nodes passed |
| Admission.RouteLatency | src/main/kotlin/ComputeNode.kt:63-69 | after routing the actual start is delayed by exactly the push delays, the total latency is those plus at most one execution latency, and it is non-negative |
| Admission.RouteEarnings | src/main/kotlin/ComputeNode.kt:90 | the bid is earned once, by the processing node, and not at all when the request is dropped |
| Admission.RouteRequestRouted | src/main/kotlin/ComputeNode.kt:55-70 | routing along a chain pushes the request past k non-cloud nodes with the first k drawn delays, then executes it at the k-th with the k-th drawn latency, or drops it past the top |
| Admission.RoutedToCloud | src/main/kotlin/ComputeNode.kt:56-63 | a routed request is never carried past a CLOUD node: it is executed, after at most as many pushes as there are nodes below that cloud |
| Admission.RouteStops | src/main/kotlin/ComputeNode.kt:55-70 | routing changes no node's name or tier |
| Admission.RouteAllStops | src/main/kotlin/ComputeNode.kt:45-47 | routing a batch changes no node's name or tier |
| Admission.TurnRouted | src/main/kotlin/ComputeNode.kt:46 | whatever the earlier requests of a batch left on the chain, the next one is routed along the same nodes |
| Admission.TurnsAt | src/main/kotlin/ComputeNode.kt:46 | the i-th entry of `Turns` is the state request i ends in when routed on what requests 0..i-1 left |
| Admission.BatchRouted | src/main/kotlin/ComputeNode.kt:45-47 | every request of a batch is routed along the chain from its state before the batch |
| Admission.RouteAllCounts | src/main/kotlin/ComputeNode.kt:45-47 | a batch of n requests raises the receiving node's processed plus pushed-up count by n |
| Nodes.OfferOrder | src/main/kotlin/ComputeNode.kt:46 | offerRequests handles every request of the batch once, in non-increasing price order |
| Nodes.OfferOrderStable | src/main/kotlin/ComputeNode.kt:46 | requests with equal prices are offered in batch order |
| Ordering.SortedByDistinct | src/main/kotlin/ComputeNode.kt:46 | sorting a list without repetitions yields one without repetitions |
| Nodes.FinalRouted | src/main/kotlin/ComputeNode.kt:45-47 | when the batch lists each request once, each request ends routed along the chain from the state it had before the batch |
| Nodes.ComputeNode.constructor | src/main/kotlin/ComputeNode.kt:7-24 | a new node has no parent, no executables, zero used storage, earnings and counters, and an all-zero utilization array of the horizon's length |
| Nodes.ComputeNode.OfferExecutable | src/main/kotlin/ComputeNode.kt:30-43 | the cache and counter after the call are what placement prescribes, stored is false exactly where the source throws, and, when the executable was not cached before, the storage fees change by the newcomer minus the evicted |
| Nodes.ComputeNode.CheckUtilization | src/main/kotlin/ComputeNode.kt:77-80 | the check on the node's array agrees with admission's capacity test `HasCapacity` on its view; `Admission.AdmitsWithinCapacity` and `Admission.LaterSlotMayOverflow` state what passing it does and does not guarantee |
| Nodes.ComputeNode.ProcessRequest | src/main/kotlin/ComputeNode.kt:85-93 | exactly the slots [timestamp, min(timestamp + latency, horizon)) gain one, earnings gain the price, processed gains one, and the request is executed here with that latency |
| Nodes.ComputeNode.OfferRequests | src/main/kotlin/ComputeNode.kt:45-47 | the node and its ancestors end as routing the price-sorted batch in turn prescribes, the node's two counters rise by the batch size, and each request listed once ends routed along the chain from the state it was in |
| Nodes.ComputeNode.OfferBatch | src/main/kotlin/ComputeNode.kt:46 | offering the requests in the given order leaves the chain as routing each in turn prescribes, raises the counters by the batch size, and, when each request is listed once, routes each along the chain |
| Nodes.ComputeNode.OfferInOrder | src/main/kotlin/ComputeNode.kt:46 | the forEach keeps, from the first turn to the last: the chain is the routing of the requests offered so far, those requests hold their `Turns` states and the rest are untouched |
| Nodes.ComputeNode.OfferNth | src/main/kotlin/ComputeNode.kt:46 | one iteration of the forEach advances that invariant by one request |
| Nodes.ComputeNode.OfferTurn | src/main/kotlin/ComputeNode.kt:46 | request i is routed on the chain the earlier requests left, and ends in its `Turns` state |
| Nodes.ComputeNode.OfferTraced | src/main/kotlin/ComputeNode.kt:46 | offering request i routes it along the chain and changes no other request of the batch |
| Nodes.ComputeNode.OfferRequest | src/main/kotlin/ComputeNode.kt:55-72 | the node, its ancestors and the request end as routing along the chain prescribes, and the request stays valid |
| Nodes.ComputeNode.Accept | src/main/kotlin/ComputeNode.kt:63 | an admitted request is processed here and no ancestor changes |
| Nodes.ComputeNode.Refuse | src/main/kotlin/ComputeNode.kt:64-70 | a refused request leaves the chain and itself as routing past this node prescribes |
| Nodes.ComputeNode.PushUp | src/main/kotlin/ComputeNode.kt:66-69 | the request is charged the delay, pushed-up rises by one here, and the ancestors route it at timestamp + delay |
| Nodes.ComputeNode.Forward | src/main/kotlin/ComputeNode.kt:69 | a parentless node drops the request; otherwise the parent routes it on its own chain, and this node is unchanged |
| Nodes.ComputeNode.GetRequestStats | src/main/kotlin/ComputeNode.kt:95 | the pair (processed, pushed up) of the node's view, the counters whose sum each offer raises by one (`Admission.OneCounterPerOffer`, `Admission.RouteAllCounts`) |
| Nodes.ComputeNode.GetEarningStats | src/main/kotlin/ComputeNode.kt:96 | the pair (earnings, summed store prices of the cache) of the node's view, which `Admission.RouteEarnings` and `Admission.PlaceStorePrices` say how offers change |
| Nodes.ComputeNode.ConnectTo | src/main/kotlin/ComputeNode.kt:103-106 | sets parent and uplink latency; the node's chain becomes itself above the parent's, and it is ready for routing when that chain is acyclic |
| Simulation.AddedBuckets | src/main/kotlin/Simulator.kt:85-97 | adding appends the request to the end of exactly one bucket, creating the inner map and list where missing, and leaves every other bucket as it was |
| Simulation.AddAllBuckets | src/main/kotlin/Simulator.kt:72 | filing a sequence appends to each bucket the requests filed under it, in sequence order |
| Simulation.DefineRequestsBuckets | src/main/kotlin/Simulator.kt:72 | after the stable sort by timestamp, each bucket receives its requests in generation order |
| Simulation.AddAllKeyedByStart | src/main/kotlin/Simulator.kt:64-67 | requests filed under their planned start keep every bucket key equal to its requests' planned start |
| Simulation.AddedFiled | src/main/kotlin/Simulator.kt:85-97 | filing one request adds exactly it to the requests in the table |
| Simulation.AddAllFiled | src/main/kotlin/Simulator.kt:72 | filing a sequence adds exactly its requests to the table |
| Simulation.SortedRequests | src/main/kotlin/Simulator.kt:72 | sorting the generated requests keeps the same requests |
| Simulation.Wrap | src/main/kotlin/Simulator.kt:180 | Kotlin Int addition wraps into [Int.MIN_VALUE, Int.MAX_VALUE] and is the identity on in-range values |
| Simulation.WrapAdd | src/main/kotlin/Simulator.kt:180 | wrapping after every addition equals wrapping the exact sum once |
| Simulation.Summarize | src/main/kotlin/Simulator.kt:174-183 | counter is the number of requests, sum their 32-bit wrapped total latency, min and max bound every latency and are attained; with no requests the sentinels stay |
| Simulation.Least | src/main/kotlin/Simulator.kt:78 | the least timestamp of a non-empty key set |
| Simulation.SortedKeys | src/main/kotlin/Simulator.kt:78 | toSortedMap's keys: strictly increasing and exactly the table's timestamps |
| Simulation.Sweep | src/main/kotlin/Simulator.kt:77-83 | every (timestamp, node) bucket is listed as visited exactly once, timestamps in non-decreasing order; nodes stay wired and requests valid |
| Simulation.SweepAt | src/main/kotlin/Simulator.kt:79-81 | at one timestamp each node with a list is listed as visited exactly once |
| Simulation.OfferList | src/main/kotlin/Simulator.kt:80 | one node's list is offered: the chain above the node ends as routing the price-sorted list prescribes, each request listed once is routed along it, and wiring and every filed request's invariant are kept |
| Simulation.OfferChain | src/main/kotlin/Simulator.kt:80 | offering one list routes the sorted list along the chain above the node, each request listed once along that chain, and keeps the requests of the list valid |
| Simulation.GatherFiled | src/main/kotlin/Simulator.kt:178 | flattening along all buckets collects exactly the filed requests |
| Simulation.OfferAll | src/main/kotlin/Simulator.kt:101 | ok iff every node can place the executable; then each node's cache and counter are as placement prescribes |
| Simulation.OfferTo | src/main/kotlin/Simulator.kt:101 | one node places the executable as prescribed and no other node changes |
| Simulation.Simulator.constructor | src/main/kotlin/Simulator.kt:14-20 | a new simulator has empty tiers, registry and table |
| Simulation.Simulator.AddRequestToSimulation | src/main/kotlin/Simulator.kt:85-97 | the table becomes the old table with the request appended to the one bucket at (timestamp, node) |
| Simulation.Simulator.DefineRequests | src/main/kotlin/Simulator.kt:53-75 | one fresh request per draw, filed in stable timestamp order: each bucket gets its requests in generation order, planned starts equal bucket keys, and exactly the new requests join the table |
| Simulation.Simulator.NewRequests | src/main/kotlin/Simulator.kt:60-67 | one fresh request per draw with the draw's executable, price and planned start, in generation order |
| Simulation.Simulator.FileAll | src/main/kotlin/Simulator.kt:72 | the sorted forEach leaves the table as filing the sorted sequence prescribes |
| Simulation.Simulator.OfferRequests | src/main/kotlin/Simulator.kt:77-83 | every bucket is listed as visited once, in non-decreasing timestamp order; the table itself is not modified |
| Simulation.Simulator.DefineExecutable | src/main/kotlin/Simulator.kt:99-103 | every node of the three tiers is offered the executable; when all can hold it each placement is as prescribed and it is registered under its name |
| Simulation.Simulator.Flatten | src/main/kotlin/Simulator.kt:178 | the buckets concatenated, each (timestamp, node) pair once |
| Simulation.Simulator.RequestSummary | src/main/kotlin/Simulator.kt:174-183 | min <= totalLatency <= max for every filed request, executed or not, both attained; count and 32-bit sum over all buckets; sentinels with no requests |
| Simulation.Simulator.BuildNode | src/main/kotlin/Simulator.kt:120-139 | a fresh unconnected node with the given parameters joins exactly the tier set of its type |
| Simulation.Simulator.BuildCloudNode | src/main/kotlin/Simulator.kt:105 | the cloud node, named "Cloud", has Int.MAX_VALUE storage and parallel capacity |
| Simulation.Simulator.BuildIntermediaryNode | src/main/kotlin/Simulator.kt:106-111 | an intermediary node with the configured intermediary capacities |
| Simulation.Simulator.BuildEdgeNode | src/main/kotlin/Simulator.kt:113-118 | an edge node with the configured edge capacities |
| Simulation.Simulator.ConnectEdgeToIntermediary | src/main/kotlin/Simulator.kt:141-142 | the edge node's parent is the intermediary, reached with the configured edge-to-intermediary latency |
| Simulation.Simulator.ConnectIntermediaryToCloud | src/main/kotlin/Simulator.kt:144-145 | the intermediary's parent is the cloud, reached with the configured intermediary-to-cloud latency |
| Simulation.Simulator.DefineTopology | src/main/kotlin/Simulator.kt:26-33 | edge below intermediary below cloud with the configured uplink latencies, each node ready for routing; wired when built on an empty simulator |
| Simulation.Simulator.ConnectTiers | src/main/kotlin/Simulator.kt:31-32 | the two connect calls give the chains [edge, intermediary, cloud], [intermediary, cloud] and [cloud] |

## Left out

- Randomness and floating point: `withVariance` and the `java.util.Random` draws are parameters (`jitter`, `Draw`, the arguments of `DefineExecutable`). Sizes and prices are exact `real`s, so `Double` rounding is not modelled. The draws are taken as non-negative.
- `defineExecutables` and the drawing loop of `defineRequests` are not modelled, because they only feed random draws into the modelled operations.
- `avgConcurrentRequests` and the `Double` average of the summary are not modelled. Both are floating point, and the average is NaN with no requests.
- `runSimulation`'s printing, its per-node result collection, `SimulationResult`, `Main` and `Configuration` are not modelled. They are I/O, formatting and configuration.
- `ComputeNode` data-class equality and hashing are not modelled. Nodes are object references, and the table's inner maps are keyed by reference.
- The Kotlin map and set iteration order is not modelled. The inner loops of the sweep, the flattening and the broadcast pick keys in an arbitrary order, and their contracts hold for every order.
- Executables are compared by value, like the data class. The cache is a `seq` in insertion order, which fixes `minByOrNull`'s tie-break.
- `Simulation.Sweep`, `Simulation.SweepAt` and `Simulation.Simulator.OfferRequests`: state which (timestamp, node) lists are visited, each once and in non-decreasing timestamp order, and that wiring and request validity are kept. They do not compose the routing result of `Simulation.OfferList` over the sweep, so they do not show that an offer was made or what state a node or request ends in. Every edge node's chain reaches the same cloud, so the views one list leaves are the starting views of the next on shared ancestors; carrying that through the two loops needs frames over every node and request of the table at once, which this model does not attempt.
- Drawn values are any non-negative integers. In the source, `withVariance(v)` stays within `maxDevInPercent` percent of `v` (Configuration.kt:55-58). The model does not tie a drawn delay to `uplinkLatency` or a drawn latency to `execLatency`, so the `uplinkLatency` that `ConnectTo` sets bounds nothing in the model; every routing contract holds for all draws.
- `Simulation.Simulator.DefineExecutable`: where some node cannot hold the executable, the source throws. The model returns `ok == false` and states nothing about the nodes offered before that one.
- `Nodes.ComputeNode.OfferExecutable`: the source's exception is the `stored == false` result.
- `Simulation.Simulator.DefineTopology`: proves `Wired` only when the simulator had no nodes before.
- `Nodes.ComputeNode.ConnectTo`: a connection that closes a cycle of parents is not excluded by the source. The model then proves nothing about readiness.
- `Admission.HasCapacity`, `Nodes.ComputeNode.CheckUtilization`: when `timestamp + execLatency` is below the horizon but `timestamp` is not (possible only with a negative `execLatency`, which the `Int` field allows), the source indexes past the end of `utilization` (ComputeNode.kt:79) and throws. The model answers false instead, so the request is pushed up the chain; that exception path is not modelled.
- Per-slot utilization bound: the source compares only the start slot with the capacity, so it does not guarantee `utilization[x] <= parallelRequestCapacity` for every slot. No such bound is stated; `Admission.LaterSlotMayOverflow` shows a later slot over capacity.
- Counters, earnings and latencies other than the summary sum are unbounded integers and reals. The 32-bit wrap-around is modelled only where the source sums latencies (`Simulation.Wrap`).
- `Simulation.Simulator.RequestSummary` requires every total latency to fit in a 32-bit `Int`, as the source's `Int` fields do.
