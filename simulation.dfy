/** The deterministic part of the simulator (Simulator.kt): node registration
    by tier, the executable broadcast, the topology, the time-bucketed request
    table with its ascending sweep, and the latency summary. */
module Simulation {
  import opened Types
  import opened Requests
  import opened Ordering
  import opened Admission
  import opened Nodes

  /** The configuration values the simulator reads besides its random draws. */
  datatype Config = Config(
    simulationDuration: nat,
    storageCapacityEdge: int,
    storageCapacityIntermediary: int,
    parallelRequestCapacityEdge: int,
    parallelRequestCapacityIntermediary: int,
    avgEdge2IntermediaryLatency: int,
    avgIntermediary2CloudLatency: int)

  /** The request table: timestamp to entry node to the requests that enter
      the topology there at that time, in insertion order. */
  type Table = map<int, map<ComputeNode, seq<ExecRequest>>>

  /** `requests[timestamp][node]`, empty where either level is missing. */
  function Bucket(table: Table, timestamp: int, node: ComputeNode): seq<ExecRequest>
  {
    if timestamp in table && node in table[timestamp] then table[timestamp][node] else []
  }

  /** The table after `addRequestToSimulation(request, timestamp, node)`. */
  function Added(table: Table, request: ExecRequest, timestamp: int, node: ComputeNode): Table
  {
    var inner: map<ComputeNode, seq<ExecRequest>> := if timestamp in table then table[timestamp] else map[];
    table[timestamp := inner[node := Bucket(table, timestamp, node) + [request]]]
  }

  /** Adding appends to the end of exactly one bucket, creating the inner map
      or the list where missing; every other bucket stays as it was. */
  lemma AddedBuckets(table: Table, request: ExecRequest, timestamp: int, node: ComputeNode)
    ensures var t' := Added(table, request, timestamp, node);
      && t'.Keys == table.Keys + {timestamp}
      && t'[timestamp].Keys == (if timestamp in table then table[timestamp].Keys else {}) + {node}
      && (forall t :: t in table && t != timestamp ==> t'[t] == table[t])
      && (forall t, n :: Bucket(t', t, n) == if t == timestamp && n == node then Bucket(table, t, n) + [request]
                                              else Bucket(table, t, n))
  {
  }

  /** One bucket after adding, without quantifiers. */
  lemma AddedBucket(table: Table, request: ExecRequest, timestamp: int, node: ComputeNode, t: int, n: ComputeNode)
    ensures Bucket(Added(table, request, timestamp, node), t, n)
         == if t == timestamp && n == node then Bucket(table, t, n) + [request] else Bucket(table, t, n)
  {
  }

  /** A generated request with the time and entry node it is filed under. */
  datatype Planned = Planned(timestamp: int, node: ComputeNode, request: ExecRequest)

  /** The sort key of `defineRequests`: the timestamp. */
  function PlannedTime(p: Planned): real
  {
    p.timestamp as real
  }

  /** The requests of a sequence of planned requests, in order. */
  function RequestsOf(ps: seq<Planned>): (r: seq<ExecRequest>)
    ensures |r| == |ps|
  {
    seq(|ps|, i requires 0 <= i < |ps| => ps[i].request)
  }

  /** Whether a planned request is filed under `timestamp` and `node`. */
  function At(timestamp: int, node: ComputeNode): Planned -> bool
  {
    (p: Planned) => p.timestamp == timestamp && p.node == node
  }

  /** `addRequestToSimulation` for each planned request in turn. */
  function AddAll(table: Table, ps: seq<Planned>): Table
    decreases |ps|
  {
    if ps == [] then table
    else
      var last := ps[|ps| - 1];
      Added(AddAll(table, ps[..|ps| - 1]), last.request, last.timestamp, last.node)
  }

  /** Adding a sequence of requests appends to each bucket the requests filed
      under it, in sequence order. */
  lemma {:induction false} AddAllBuckets(table: Table, ps: seq<Planned>, t: int, n: ComputeNode)
    ensures Bucket(AddAll(table, ps), t, n)
         == Bucket(table, t, n) + RequestsOf(Filter(ps, At(t, n)))
    decreases |ps|
  {
    var at := At(t, n);
    if ps == [] {
      assert RequestsOf(Filter(ps, at)) == [];
    } else {
      var front, last := ps[..|ps| - 1], ps[|ps| - 1];
      var before := AddAll(table, front);
      var kept := Filter(front, at);
      AddAllBuckets(table, front, t, n);
      assert ps == front + [last];
      FilterSnoc(front, last, at);
      assert AddAll(table, ps) == Added(before, last.request, last.timestamp, last.node);
      AddedBucket(before, last.request, last.timestamp, last.node, t, n);
      if at(last) {
        RequestsOfConcat(kept, [last]);
        assert RequestsOf([last]) == [last.request];
      } else {
        assert Filter(ps, at) == kept;
      }
    }
  }

  lemma RequestsOfConcat(a: seq<Planned>, b: seq<Planned>)
    ensures RequestsOf(a + b) == RequestsOf(a) + RequestsOf(b)
  {
  }

  /** `defineRequests` files the requests in ascending timestamp order with a
      stable sort: each bucket receives its requests in generation order. */
  lemma DefineRequestsBuckets(table: Table, ps: seq<Planned>, t: int, n: ComputeNode)
    ensures Ascending(SortedBy(ps, PlannedTime), PlannedTime)
    ensures Bucket(AddAll(table, SortedBy(ps, PlannedTime)), t, n)
         == Bucket(table, t, n) + RequestsOf(Filter(ps, At(t, n)))
  {
    var at := At(t, n);
    SortedByAscending(ps, PlannedTime);
    AddAllBuckets(table, SortedBy(ps, PlannedTime), t, n);
    SortedByStable(ps, PlannedTime, at, t as real);
  }

  /** Every request in the table is filed under its planned start. */
  ghost predicate KeyedByStart(table: Table)
  {
    forall t, n, i :: t in table && n in table[t] && 0 <= i < |table[t][n]| ==> table[t][n][i].plannedStart == t
  }

  /** Filing requests under their planned starts keeps the table keyed by
      start. */
  lemma {:induction false} AddAllKeyedByStart(table: Table, ps: seq<Planned>)
    requires KeyedByStart(table)
    requires forall i :: 0 <= i < |ps| ==> ps[i].request.plannedStart == ps[i].timestamp
    ensures KeyedByStart(AddAll(table, ps))
    decreases |ps|
  {
    if ps != [] {
      var front, last := ps[..|ps| - 1], ps[|ps| - 1];
      AddAllKeyedByStart(table, front);
      var before: Table := AddAll(table, front);
      var after: Table := AddAll(table, ps);
      AddedBuckets(before, last.request, last.timestamp, last.node);
      forall t: int, n: ComputeNode, i: int | t in after && n in after[t] && 0 <= i < |after[t][n]|
        ensures after[t][n][i].plannedStart == t
      {
        assert after[t][n] == Bucket(after, t, n);
        if t != last.timestamp || n != last.node {
          assert after[t][n] == Bucket(before, t, n);
        }
      }
    }
  }

  /** Kotlin's 32-bit `Int` addition, which wraps around. */
  function Wrap(x: int): (r: int)
    ensures IntMin <= r <= IntMax
    ensures IntMin <= x <= IntMax ==> r == x
  {
    (x - IntMin) % 0x1_0000_0000 + IntMin
  }

  /** Wrapping once at the end or after every step gives the same sum. */
  lemma WrapAdd(a: int, b: int)
    ensures Wrap(Wrap(a) + b) == Wrap(a + b)
  {
    var d := (a - IntMin) / 0x1_0000_0000;
    assert a - IntMin == d * 0x1_0000_0000 + (a - IntMin) % 0x1_0000_0000;
    ModShift(a + b - IntMin, d);
  }

  lemma ModShift(y: int, d: int)
    ensures (y - d * 0x1_0000_0000) % 0x1_0000_0000 == y % 0x1_0000_0000
  {
    var q, r := y / 0x1_0000_0000, y % 0x1_0000_0000;
    assert y - d * 0x1_0000_0000 == (q - d) * 0x1_0000_0000 + r;
  }

  /** The total latencies of a sequence of requests. */
  function Latencies(rs: seq<ExecRequest>): (l: seq<int>)
    reads set r | r in rs
    ensures |l| == |rs|
  {
    seq(|rs|, j requires 0 <= j < |rs| reads set r | r in rs => rs[j].totalLatency)
  }

  /** The summary loop of `runSimulation` over the flattened table: the
      smallest and largest total latency, executed or not, their 32-bit sum
      and the count; with no request the sentinels stay. */
  method Summarize(all: seq<ExecRequest>) returns (min: int, max: int, sum: int, counter: int)
    requires forall j :: 0 <= j < |all| ==> IntMin <= all[j].totalLatency <= IntMax
    ensures counter == |all| && sum == Wrap(Sum(Latencies(all)))
    ensures forall j :: 0 <= j < |all| ==> min <= all[j].totalLatency <= max
    ensures all == [] ==> min == IntMax && max == IntMin
    ensures all != [] ==>
              (exists j :: 0 <= j < |all| && all[j].totalLatency == min) &&
              (exists j :: 0 <= j < |all| && all[j].totalLatency == max)
  {
    min, max, sum, counter := IntMax, IntMin, 0, 0;
    while counter < |all|
      invariant 0 <= counter <= |all|
      invariant sum == Wrap(Sum(Latencies(all)[..counter]))
      invariant forall j :: 0 <= j < counter ==> min <= all[j].totalLatency <= max
      invariant counter == 0 ==> min == IntMax && max == IntMin
      invariant counter > 0 ==>
                  (exists j :: 0 <= j < counter && all[j].totalLatency == min) &&
                  (exists j :: 0 <= j < counter && all[j].totalLatency == max)
    {
      var it := all[counter];
      assert Latencies(all)[..counter + 1] == Latencies(all)[..counter] + [it.totalLatency];
      WrapAdd(Sum(Latencies(all)[..counter]), it.totalLatency);
      sum := Wrap(sum + it.totalLatency);
      if it.totalLatency < min {
        min := it.totalLatency;
      }
      if it.totalLatency > max {
        max := it.totalLatency;
      }
      counter := counter + 1;
    }
    assert Latencies(all)[..counter] == Latencies(all);
  }

  /** A non-empty set of timestamps has an element to pick. */
  lemma InhabitedKeys(s: set<int>)
    requires s != {}
    ensures exists x :: x in s
  {
    if forall x :: x !in s {
      assert false;
    }
  }

  /** A non-empty set of nodes has an element to pick. */
  lemma InhabitedNodes(s: set<ComputeNode>)
    requires s != {}
    ensures exists x :: x in s
  {
    if forall x :: x !in s {
      assert false;
    }
  }

  /** The least element of a non-empty set of timestamps. */
  method Least(keys: set<int>) returns (m: int)
    requires keys != {}
    ensures m in keys && forall k :: k in keys ==> m <= k
  {
    InhabitedKeys(keys);
    m :| m in keys;
    var todo := keys - {m};
    while todo != {}
      invariant todo <= keys && m in keys
      invariant forall k :: k in keys && k !in todo ==> m <= k
      decreases |todo|
    {
      InhabitedKeys(todo);
      var x :| x in todo;
      if x < m {
        m := x;
      }
      todo := todo - {x};
    }
  }

  /** The keys of `toSortedMap()`: every timestamp once, ascending. */
  method SortedKeys(keys: set<int>) returns (s: seq<int>)
    ensures forall i, j :: 0 <= i < j < |s| ==> s[i] < s[j]
    ensures forall k :: k in keys <==> k in s
  {
    s := [];
    var rest := keys;
    while rest != {}
      invariant rest <= keys
      invariant forall k :: k in keys <==> k in rest || k in s
      invariant forall i, j :: 0 <= i < j < |s| ==> s[i] < s[j]
      invariant forall i, k :: 0 <= i < |s| && k in rest ==> s[i] < k
      decreases |rest|
    {
      var m := Least(rest);
      s := s + [m];
      rest := rest - {m};
    }
  }

  /** The requests filed anywhere in a table. */
  ghost function Filed(table: Table): set<ExecRequest>
  {
    set t, n, r | t in table && n in table[t] && r in table[t][n] :: r
  }

  /** Filing one request adds exactly it to the filed requests. */
  lemma AddedFiled(table: Table, request: ExecRequest, timestamp: int, node: ComputeNode)
    ensures Filed(Added(table, request, timestamp, node)) == Filed(table) + {request}
  {
    var after := Added(table, request, timestamp, node);
    AddedBuckets(table, request, timestamp, node);
    forall r | r in Filed(after) ensures r in Filed(table) + {request} {
      var t, n :| t in after && n in after[t] && r in after[t][n];
      assert after[t][n] == Bucket(after, t, n);
    }
    forall r | r in Filed(table) ensures r in Filed(after) {
      var t, n :| t in table && n in table[t] && r in table[t][n];
      assert table[t][n] == Bucket(table, t, n);
      assert r in Bucket(after, t, n);
    }
    assert request in Bucket(after, timestamp, node);
  }

  /** The requests of a sequence of planned requests, as a set. */
  ghost function RequestSet(ps: seq<Planned>): set<ExecRequest>
  {
    set k | 0 <= k < |ps| :: ps[k].request
  }

  /** Filing a sequence of requests adds exactly them to the filed requests. */
  lemma {:induction false} AddAllFiled(table: Table, ps: seq<Planned>)
    ensures Filed(AddAll(table, ps)) == Filed(table) + RequestSet(ps)
    decreases |ps|
  {
    if ps != [] {
      var front, last := ps[..|ps| - 1], ps[|ps| - 1];
      AddAllFiled(table, front);
      AddedFiled(AddAll(table, front), last.request, last.timestamp, last.node);
      assert RequestSet(ps) == RequestSet(front) + {last.request} by {
        forall r | r in RequestSet(ps) ensures r in RequestSet(front) + {last.request} {
          var k :| 0 <= k < |ps| && ps[k].request == r;
          if k < |ps| - 1 {
            assert front[k] == ps[k];
          }
        }
        forall r | r in RequestSet(front) ensures r in RequestSet(ps) {
          var k :| 0 <= k < |front| && front[k].request == r;
          assert ps[k] == front[k];
        }
      }
    }
  }

  /** Sorting planned requests by time keeps the same requests. */
  lemma SortedRequests(ps: seq<Planned>)
    ensures RequestSet(SortedBy(ps, PlannedTime)) == RequestSet(ps)
  {
    var sorted := SortedBy(ps, PlannedTime);
    SortedByMembers(ps, PlannedTime);
    forall r | r in RequestSet(sorted) ensures r in RequestSet(ps) {
      var k :| 0 <= k < |sorted| && sorted[k].request == r;
      var j :| 0 <= j < |ps| && ps[j] == sorted[k];
    }
    forall r | r in RequestSet(ps) ensures r in RequestSet(sorted) {
      var k :| 0 <= k < |ps| && ps[k].request == r;
      var j :| 0 <= j < |sorted| && sorted[j] == ps[k];
    }
  }

  /** The table's keys: non-negative times and nodes out of `nodes`. */
  ghost predicate Within(table: Table, nodes: set<ComputeNode>)
  {
    forall t :: t in table ==> t >= 0 && table[t].Keys <= nodes
  }

  /** Filing one request under a non-negative time at a node out of `nodes`
      keeps the table within them. */
  lemma AddedWithin(table: Table, request: ExecRequest, timestamp: int, node: ComputeNode, nodes: set<ComputeNode>)
    requires Within(table, nodes) && timestamp >= 0 && node in nodes
    ensures Within(Added(table, request, timestamp, node), nodes)
  {
    AddedBuckets(table, request, timestamp, node);
  }

  /** Filing requests under non-negative times at nodes out of `nodes` keeps
      the table within them. */
  lemma {:induction false} AddAllWithin(table: Table, ps: seq<Planned>, nodes: set<ComputeNode>)
    requires Within(table, nodes)
    requires forall k :: 0 <= k < |ps| ==> ps[k].timestamp >= 0 && ps[k].node in nodes
    ensures Within(AddAll(table, ps), nodes)
    decreases |ps|
  {
    if ps != [] {
      var front, last := ps[..|ps| - 1], ps[|ps| - 1];
      AddAllWithin(table, front, nodes);
      AddedWithin(AddAll(table, front), last.request, last.timestamp, last.node, nodes);
    }
  }

  /** One draw of `defineRequests`: start, entry node, executable and price. */
  datatype Draw = Draw(timestamp: int, node: ComputeNode, executable: Executable, price: real)

  /** The buckets of a table along a list of (timestamp, node) slots, one after
      the other. */
  function Gather(table: Table, slots: seq<(int, ComputeNode)>): seq<ExecRequest>
    decreases |slots|
  {
    if slots == [] then []
    else Gather(table, slots[..|slots| - 1]) + Bucket(table, slots[|slots| - 1].0, slots[|slots| - 1].1)
  }

  /** The utilization arrays of a set of nodes. */
  ghost function Utilizations(nodes: set<ComputeNode>): set<array<int>>
  {
    set n | n in nodes :: n.utilization
  }

  /** Every node is ready for routing and its ancestors are in the set. */
  ghost predicate WiredNodes(nodes: set<ComputeNode>)
    reads nodes`parentNode, nodes`Above
  {
    forall n :: n in nodes ==>
      (forall k :: 0 <= k < |n.Above| ==> n.Above[k] in nodes) && n.Ready()
  }

  /** The ancestors of a node of a wired set own utilization arrays of the
      set. */
  lemma ArraysWithin(nodes: set<ComputeNode>, n: ComputeNode)
    requires WiredNodes(nodes) && n in nodes
    ensures Arrays(n.Above) <= Utilizations(nodes)
  {
    forall a | a in Arrays(n.Above) ensures a in Utilizations(nodes) {
      InArrays(n.Above, a);
    }
  }

  /** Every request of the set satisfies the request invariant. */
  ghost predicate AllValid(rs: set<ExecRequest>)
    reads rs
  {
    forall r :: r in rs ==> r.Valid()
  }

  /** Each request has a delay or latency for every node of any chain it can
      climb. */
  ghost predicate Reaches(nodes: set<ComputeNode>, rs: set<ExecRequest>, jitter: ExecRequest -> seq<nat>)
    reads nodes`Above
  {
    forall n, r :: n in nodes && r in rs ==> |jitter(r)| >= |n.Chain()|
  }

  /** Wiring depends only on the parent links and chains of the nodes. */
  twostate lemma WiredKept(nodes: set<ComputeNode>)
    requires old(WiredNodes(nodes))
    requires forall n :: n in nodes ==> n.parentNode == old(n.parentNode) && n.Above == old(n.Above)
    ensures WiredNodes(nodes)
  {
    forall n | n in nodes
      ensures (forall k :: 0 <= k < |n.Above| ==> n.Above[k] in nodes) && n.Ready()
    {
      assert old(n.Ready());
    }
  }

  /** The sweep of `Simulator.offerRequests` over a table whose nodes are out
      of `nodes`: buckets in ascending timestamp order, and within one
      timestamp each node's list once. */
  method Sweep(table: Table, nodes: set<ComputeNode>, jitter: ExecRequest -> seq<nat>)
    returns (visited: seq<(int, ComputeNode)>)
    requires WiredNodes(nodes) && Within(table, nodes) && AllValid(Filed(table))
    requires Reaches(nodes, Filed(table), jitter)
    modifies nodes`earnings, nodes`requestsProcessed, nodes`requestsPushedUp, Utilizations(nodes)
    modifies Filed(table)`totalLatency, Filed(table)`actualStart, Filed(table)`pushDelays
    modifies Filed(table)`executionNode, Filed(table)`executionNodeType
    modifies Filed(table)`executionCompleted, Filed(table)`execLatencies
    ensures forall a, b :: 0 <= a < b < |visited| ==> visited[a].0 <= visited[b].0 && visited[a] != visited[b]
    ensures forall t, n :: (t, n) in visited <==> t in table && n in table[t]
    ensures WiredNodes(nodes) && AllValid(Filed(table))
  {
    var keys := SortedKeys(table.Keys);
    visited := [];
    for i := 0 to |keys|
      invariant WiredNodes(nodes) && AllValid(Filed(table)) && Reaches(nodes, Filed(table), jitter)
      invariant forall a, b :: 0 <= a < b < |visited| ==> visited[a].0 <= visited[b].0 && visited[a] != visited[b]
      invariant forall a :: 0 <= a < |visited| ==> visited[a].0 in keys[..i]
      invariant forall t, n :: (t, n) in visited <==> t in keys[..i] && n in table[t]
    {
      var pairs := SweepAt(table, keys[i], nodes, jitter);
      SweepStep(table, keys, i, visited, pairs);
      visited := visited + pairs;
    }
    assert keys[..|keys|] == keys;
  }

  /** One round of the outer sweep loop: appending the pairs of the next
      timestamp keeps the pairs ordered, distinct and exactly those of the
      timestamps done. */
  lemma SweepStep(table: Table, keys: seq<int>, i: nat, visited: seq<(int, ComputeNode)>, pairs: seq<(int, ComputeNode)>)
    requires i < |keys| && forall a, b :: 0 <= a < b < |keys| ==> keys[a] < keys[b]
    requires forall j :: 0 <= j < |keys| ==> keys[j] in table
    requires forall a, b :: 0 <= a < b < |visited| ==> visited[a].0 <= visited[b].0 && visited[a] != visited[b]
    requires forall a :: 0 <= a < |visited| ==> visited[a].0 in keys[..i]
    requires forall t, n :: (t, n) in visited <==> t in keys[..i] && n in table[t]
    requires forall a :: 0 <= a < |pairs| ==> pairs[a].0 == keys[i]
    requires forall a, b :: 0 <= a < b < |pairs| ==> pairs[a] != pairs[b]
    requires forall n :: (keys[i], n) in pairs <==> n in table[keys[i]]
    ensures var v := visited + pairs;
      && (forall a, b :: 0 <= a < b < |v| ==> v[a].0 <= v[b].0 && v[a] != v[b])
      && (forall a :: 0 <= a < |v| ==> v[a].0 in keys[..i + 1])
      && (forall t, n :: (t, n) in v <==> t in keys[..i + 1] && n in table[t])
  {
    assert keys[..i + 1] == keys[..i] + [keys[i]];
    assert forall a :: 0 <= a < |visited| ==> visited[a].0 < keys[i];
    var v := visited + pairs;
    forall t, n ensures (t, n) in v <==> t in keys[..i + 1] && n in table[t] {
      if (t, n) in pairs {
        var a :| 0 <= a < |pairs| && pairs[a] == (t, n);
      }
    }
  }

  /** The progress of the inner sweep loop at timestamp `t`: `visited` holds
      each node of `keys` outside `todo` once, paired with `t`. */
  ghost predicate SweptAt(t: int, keys: set<ComputeNode>, todo: set<ComputeNode>, visited: seq<(int, ComputeNode)>)
  {
    && todo <= keys
    && (forall a :: 0 <= a < |visited| ==> visited[a].0 == t)
    && (forall n :: n in keys ==> ((t, n) in visited <==> n !in todo))
    && (forall a, b :: 0 <= a < b < |visited| ==> visited[a] != visited[b])
    && (forall a :: 0 <= a < |visited| ==> visited[a].1 in keys)
  }

  /** One round of the inner sweep loop: adding the next node keeps the pairs
      distinct and exactly those of the nodes done. */
  lemma SweepAtStep(t: int, keys: set<ComputeNode>, todo: set<ComputeNode>, node: ComputeNode,
                    visited: seq<(int, ComputeNode)>)
    requires node in todo && SweptAt(t, keys, todo, visited)
    ensures SweptAt(t, keys, todo - {node}, visited + [(t, node)])
    ensures |todo - {node}| < |todo|
  {
    assert (t, node) !in visited;
  }

  /** The inner loop of `offerRequests` at one timestamp: every node with a
      list there offers it, each once, in some order. */
  method SweepAt(table: Table, t: int, nodes: set<ComputeNode>, jitter: ExecRequest -> seq<nat>)
    returns (visited: seq<(int, ComputeNode)>)
    requires t in table && WiredNodes(nodes) && Within(table, nodes) && AllValid(Filed(table))
    requires Reaches(nodes, Filed(table), jitter)
    modifies nodes`earnings, nodes`requestsProcessed, nodes`requestsPushedUp, Utilizations(nodes)
    modifies Filed(table)`totalLatency, Filed(table)`actualStart, Filed(table)`pushDelays
    modifies Filed(table)`executionNode, Filed(table)`executionNodeType
    modifies Filed(table)`executionCompleted, Filed(table)`execLatencies
    ensures forall a :: 0 <= a < |visited| ==> visited[a].0 == t
    ensures forall a, b :: 0 <= a < b < |visited| ==> visited[a] != visited[b]
    ensures forall n :: (t, n) in visited <==> n in table[t]
    ensures WiredNodes(nodes) && AllValid(Filed(table)) && Reaches(nodes, Filed(table), jitter)
  {
    var nodeToReqList := table[t];
    var todo := nodeToReqList.Keys;
    visited := [];
    while todo != {}
      invariant SweptAt(t, nodeToReqList.Keys, todo, visited)
      invariant WiredNodes(nodes) && AllValid(Filed(table)) && Reaches(nodes, Filed(table), jitter)
      decreases |todo|
    {
      InhabitedNodes(todo);
      var node :| node in todo;
      var reqList := nodeToReqList[node];
      assert forall r :: r in reqList ==> r in Filed(table);
      OfferList(t, node, reqList, nodes, Filed(table), jitter);
      SweepAtStep(t, nodeToReqList.Keys, todo, node, visited);
      visited := visited + [(t, node)];
      todo := todo - {node};
    }
  }

  /** `node.offerRequests(timestamp, reqList)` for one list of the table: the
      chain above `node` ends as routing the sorted list prescribes, and each
      request listed once is routed along it. */
  method OfferList(t: int, node: ComputeNode, reqList: seq<ExecRequest>, nodes: set<ComputeNode>,
                   ghost filed: set<ExecRequest>, jitter: ExecRequest -> seq<nat>)
    requires t >= 0 && node in nodes && WiredNodes(nodes)
    requires forall r :: r in reqList ==> r in filed
    requires AllValid(filed) && Reaches(nodes, filed, jitter)
    modifies nodes`earnings, nodes`requestsProcessed, nodes`requestsPushedUp, Utilizations(nodes)
    modifies filed`totalLatency, filed`actualStart, filed`pushDelays
    modifies filed`executionNode, filed`executionNodeType
    modifies filed`executionCompleted, filed`execLatencies
    ensures WiredNodes(nodes) && AllValid(filed) && Reaches(nodes, filed, jitter)
    ensures BatchRoutable(old(node.ChainViews()), Demands(SortedBy(reqList, NegPrice), jitter))
    ensures node.ChainViews() == RouteAll(old(node.ChainViews()), t, Demands(SortedBy(reqList, NegPrice), jitter))
    ensures Distinct(reqList) ==> forall r :: r in reqList ==> Routed(old(r.State()), r.State(), StopsOf(old(node.ChainViews())), jitter(r))
  {
    OfferChain(t, node, reqList, nodes, filed, jitter);
    WiredKept(nodes);
    forall r | r in filed ensures r.Valid() {
      if r !in reqList {
        assert old(r.Valid());
      }
    }
  }

  /** `node.offerRequests(t, reqList)`: it touches only the requests of the
      list, which stay valid and are routed along the chain above `node`. */
  method OfferChain(t: int, node: ComputeNode, reqList: seq<ExecRequest>, nodes: set<ComputeNode>,
                    ghost filed: set<ExecRequest>, jitter: ExecRequest -> seq<nat>)
    requires t >= 0 && node in nodes && WiredNodes(nodes)
    requires forall r :: r in reqList ==> r in filed
    requires AllValid(filed) && Reaches(nodes, filed, jitter)
    modifies nodes`earnings, nodes`requestsProcessed, nodes`requestsPushedUp, Utilizations(nodes)
    modifies reqList`totalLatency, reqList`actualStart, reqList`pushDelays
    modifies reqList`executionNode, reqList`executionNodeType
    modifies reqList`executionCompleted, reqList`execLatencies
    ensures forall r :: r in reqList ==> r.Valid()
    ensures BatchRoutable(old(node.ChainViews()), Demands(SortedBy(reqList, NegPrice), jitter))
    ensures node.ChainViews() == RouteAll(old(node.ChainViews()), t, Demands(SortedBy(reqList, NegPrice), jitter))
    ensures Distinct(reqList) ==> forall r :: r in reqList ==> Routed(old(r.State()), r.State(), StopsOf(old(node.ChainViews())), jitter(r))
  {
    ArraysWithin(nodes, node);
    node.OfferRequests(t, reqList, jitter);
  }

  /** A request in the bucket of one of the slots is gathered. */
  lemma {:induction false} GatherIn(table: Table, slots: seq<(int, ComputeNode)>, k: nat, r: ExecRequest)
    requires k < |slots| && r in Bucket(table, slots[k].0, slots[k].1)
    ensures r in Gather(table, slots)
    decreases |slots|
  {
    var front, last := slots[..|slots| - 1], slots[|slots| - 1];
    assert Gather(table, slots) == Gather(table, front) + Bucket(table, last.0, last.1);
    if k < |front| {
      assert front[k] == slots[k];
      GatherIn(table, front, k, r);
    }
  }

  /** A gathered request comes from the bucket of one of the slots. */
  lemma {:induction false} GatherFrom(table: Table, slots: seq<(int, ComputeNode)>, r: ExecRequest) returns (k: nat)
    requires r in Gather(table, slots)
    ensures k < |slots| && r in Bucket(table, slots[k].0, slots[k].1)
    decreases |slots|
  {
    var front, last := slots[..|slots| - 1], slots[|slots| - 1];
    assert Gather(table, slots) == Gather(table, front) + Bucket(table, last.0, last.1);
    if r in Bucket(table, last.0, last.1) {
      k := |slots| - 1;
    } else {
      k := GatherFrom(table, front, r);
      assert front[k] == slots[k];
    }
  }

  /** Gathering along slots that are exactly the table's buckets collects
      exactly the filed requests. */
  lemma GatherFiled(table: Table, slots: seq<(int, ComputeNode)>)
    requires forall t, n :: (t, n) in slots <==> t in table && n in table[t]
    ensures forall r :: r in Gather(table, slots) <==> r in Filed(table)
  {
    forall r ensures r in Gather(table, slots) <==> r in Filed(table) {
      if r in Filed(table) {
        var t, n :| t in table && n in table[t] && r in table[t][n];
        assert (t, n) in slots;
        var k :| 0 <= k < |slots| && slots[k] == (t, n);
        GatherIn(table, slots, k, r);
      }
      if r in Gather(table, slots) {
        var k := GatherFrom(table, slots, r);
        assert slots[k] in slots;
      }
    }
  }

  /** A sequence drawn from an empty set is empty. */
  lemma NoneOutside(s: seq<ExecRequest>, f: set<ExecRequest>)
    requires forall j :: 0 <= j < |s| ==> s[j] in f
    ensures f == {} ==> s == []
  {
    if s != [] {
      assert s[0] in f;
    }
  }

  /** `node` took `exe` into the cache it had before, as `offerExecutable`
      places it. */
  ghost predicate Took(node: ComputeNode, cache: seq<Executable>, used: real, exe: Executable)
    reads node`executables, node`usedStorageCapacity
  {
    var p := Place(cache, used, exe, node.storageCapacity);
    p.stored && node.executables == p.executables && node.usedStorageCapacity == p.used
  }

  /** The loop of `defineExecutable`: offers `exe` to each node of `nodes`
      in turn and stops at the first that cannot hold it. */
  method OfferAll(nodes: set<ComputeNode>, exe: Executable) returns (ok: bool)
    modifies nodes`executables, nodes`usedStorageCapacity
    ensures ok <==> forall n :: n in nodes ==> Place(old(n.executables), old(n.usedStorageCapacity), exe, n.storageCapacity).stored
    ensures ok ==> forall n :: n in nodes ==>
      var p := Place(old(n.executables), old(n.usedStorageCapacity), exe, n.storageCapacity);
      n.executables == p.executables && n.usedStorageCapacity == p.used
  {
    var todo := nodes;
    while todo != {}
      invariant todo <= nodes
      invariant forall n :: n in nodes && n !in todo ==> Took(n, old(n.executables), old(n.usedStorageCapacity), exe)
      invariant forall n :: n in todo ==>
        n.executables == old(n.executables) && n.usedStorageCapacity == old(n.usedStorageCapacity)
      decreases |todo|
    {
      InhabitedNodes(todo);
      var node :| node in todo;
      var stored := OfferTo(node, exe, nodes);
      if !stored {
        return false;
      }
      todo := todo - {node};
    }
    ok := true;
  }

  /** `node.offerExecutable(exe)` among `nodes`: the node takes `exe` as
      placement decides, and no other node changes. */
  method OfferTo(node: ComputeNode, exe: Executable, ghost nodes: set<ComputeNode>) returns (stored: bool)
    modifies node`executables, node`usedStorageCapacity
    ensures stored == Place(old(node.executables), old(node.usedStorageCapacity), exe, node.storageCapacity).stored
    ensures stored ==> Took(node, old(node.executables), old(node.usedStorageCapacity), exe)
    ensures forall n :: n in nodes && n != node ==>
      n.executables == old(n.executables) && n.usedStorageCapacity == old(n.usedStorageCapacity)
  {
    stored := node.OfferExecutable(exe);
  }

  /** The simulator: the nodes of each tier, the registered executables and the
      request table. */
  class Simulator {
    const config: Config
    var cloud: set<ComputeNode>
    var intermediary: set<ComputeNode>
    var edge: set<ComputeNode>
    var executables: map<string, Executable>
    var requests: Table

    constructor (config: Config)
      ensures this.config == config
      ensures cloud == {} && intermediary == {} && edge == {}
      ensures executables == map[] && requests == map[]
    {
      this.config := config;
      cloud, intermediary, edge := {}, {}, {};
      executables := map[];
      requests := map[];
    }

    /** `cloud.union(intermediary).union(edge)`. */
    function Nodes(): set<ComputeNode>
      reads this`cloud, this`intermediary, this`edge
    {
      cloud + intermediary + edge
    }

    /** Every node is ready for routing and its ancestors are nodes of the
        simulator. */
    ghost predicate Wired()
      reads this`cloud, this`intermediary, this`edge, Nodes()`parentNode, Nodes()`Above
    {
      WiredNodes(Nodes())
    }

    /** Every request in the table satisfies the request invariant. */
    ghost predicate FiledValid()
      reads this`requests, Filed(requests)
    {
      AllValid(Filed(requests))
    }

    /** `addRequestToSimulation`: appends `request` to the list of `node` at
        `timestamp`, creating the inner map and the list where missing. */
    method AddRequestToSimulation(request: ExecRequest, timestamp: int, node: ComputeNode)
      modifies this`requests
      ensures requests == Added(old(requests), request, timestamp, node)
    {
      var nodeToReqList: map<ComputeNode, seq<ExecRequest>>;
      if timestamp in requests {
        nodeToReqList := requests[timestamp];
      } else {
        nodeToReqList := map[];
        requests := requests[timestamp := nodeToReqList];
      }
      var reqList: seq<ExecRequest>;
      if node in nodeToReqList {
        reqList := nodeToReqList[node];
      } else {
        reqList := [];
        nodeToReqList := nodeToReqList[node := reqList];
        requests := requests[timestamp := nodeToReqList];
      }
      assert reqList == Bucket(old(requests), timestamp, node);
      assert nodeToReqList[node := reqList + [request]]
          == (if timestamp in old(requests) then old(requests)[timestamp] else map[])[node := reqList + [request]];
      requests := requests[timestamp := nodeToReqList[node := reqList + [request]]];
    }

    /** `defineRequests` after the random draws: one new request per draw, in
        generation order, filed in ascending timestamp order by a stable sort,
        so that each bucket receives its requests in generation order. */
    method DefineRequests(draws: seq<Draw>) returns (planned: seq<Planned>)
      requires forall k :: 0 <= k < |draws| ==>
                 0 <= draws[k].timestamp < config.simulationDuration && draws[k].node in edge
                 && draws[k].executable in executables.Values
      modifies this`requests
      ensures |planned| == |draws|
      ensures forall k :: 0 <= k < |draws| ==> Generated(draws[k], planned[k]) && fresh(planned[k].request)
      ensures requests == AddAll(old(requests), SortedBy(planned, PlannedTime))
      ensures forall t, n :: Bucket(requests, t, n) == Bucket(old(requests), t, n) + RequestsOf(Filter(planned, At(t, n)))
      ensures Filed(requests) == Filed(old(requests)) + RequestSet(planned)
      ensures old(Within(requests, Nodes())) ==> Within(requests, Nodes())
      ensures old(KeyedByStart(requests)) ==> KeyedByStart(requests)
      ensures old(FiledValid()) ==> FiledValid()
    {
      planned := NewRequests(draws);
      assert forall k :: 0 <= k < |planned| ==> planned[k].timestamp >= 0 && planned[k].node in Nodes();
      FileAll(planned);
      if old(FiledValid()) {
        forall r | r in Filed(requests) ensures r.Valid() {
          if r !in Filed(old(requests)) {
            var k :| 0 <= k < |planned| && planned[k].request == r;
            assert Generated(draws[k], planned[k]);
          }
        }
      }
    }

    /** The `ExecRequest(executable, price, timestamp)` of one draw, filed
        under the draw's time and node. */
    ghost predicate Generated(d: Draw, p: Planned)
      reads p.request
    {
      && p.timestamp == d.timestamp && p.node == d.node
      && p.request.executable == d.executable && p.request.execPrice == d.price
      && p.request.plannedStart == d.timestamp
      && p.request.State() == Initial(d.timestamp) && p.request.Valid()
    }

    /** The request-creating loop of `defineRequests`, in generation order. */
    method NewRequests(draws: seq<Draw>) returns (planned: seq<Planned>)
      ensures |planned| == |draws|
      ensures forall k :: 0 <= k < |draws| ==> Generated(draws[k], planned[k]) && fresh(planned[k].request)
    {
      planned := [];
      for k := 0 to |draws|
        invariant |planned| == k
        invariant forall j :: 0 <= j < k ==> Generated(draws[j], planned[j]) && fresh(planned[j].request)
      {
        var d := draws[k];
        var request := new ExecRequest(d.executable, d.price, d.timestamp);
        planned := planned + [Planned(d.timestamp, d.node, request)];
      }
    }

    /** `reqs.sortedBy { it.first }.forEach { addRequestToSimulation(...) }`. */
    method FileAll(planned: seq<Planned>)
      modifies this`requests
      ensures requests == AddAll(old(requests), SortedBy(planned, PlannedTime))
      ensures forall t, n :: Bucket(requests, t, n) == Bucket(old(requests), t, n) + RequestsOf(Filter(planned, At(t, n)))
      ensures Filed(requests) == Filed(old(requests)) + RequestSet(planned)
      ensures old(Within(requests, Nodes())) && (forall k :: 0 <= k < |planned| ==> planned[k].timestamp >= 0 && planned[k].node in Nodes())
              ==> Within(requests, Nodes())
      ensures old(KeyedByStart(requests)) && (forall k :: 0 <= k < |planned| ==> planned[k].request.plannedStart == planned[k].timestamp)
              ==> KeyedByStart(requests)
    {
      var sorted := SortedBy(planned, PlannedTime);
      assert sorted[..0] == [];
      for k := 0 to |sorted|
        invariant requests == AddAll(old(requests), sorted[..k])
      {
        var p := sorted[k];
        assert sorted[..k + 1][..k] == sorted[..k];
        AddRequestToSimulation(p.request, p.timestamp, p.node);
      }
      assert sorted[..|sorted|] == sorted;
      AddAllFiled(old(requests), sorted);
      SortedRequests(planned);
      SortedByMembers(planned, PlannedTime);
      if old(Within(requests, Nodes())) && (forall k :: 0 <= k < |planned| ==> planned[k].timestamp >= 0 && planned[k].node in Nodes()) {
        AddAllWithin(old(requests), sorted, Nodes());
      }
      if old(KeyedByStart(requests)) && (forall k :: 0 <= k < |planned| ==> planned[k].request.plannedStart == planned[k].timestamp) {
        AddAllKeyedByStart(old(requests), sorted);
      }
      forall t, n ensures Bucket(requests, t, n) == Bucket(old(requests), t, n) + RequestsOf(Filter(planned, At(t, n))) {
        DefineRequestsBuckets(old(requests), planned, t, n);
      }
    }

    /** `offerRequests`: the buckets in ascending timestamp order, and within
        a timestamp each node's list once, in some order; each list goes to
        `ComputeNode.offerRequests`. `visited` lists the (timestamp, node)
        pairs in the order they are offered. The table is not changed. */
    method OfferRequests(jitter: ExecRequest -> seq<nat>) returns (visited: seq<(int, ComputeNode)>)
      requires Wired() && Within(requests, Nodes()) && FiledValid()
      requires Reaches(Nodes(), Filed(requests), jitter)
      modifies Nodes()`earnings, Nodes()`requestsProcessed, Nodes()`requestsPushedUp, Utilizations(Nodes())
      modifies Filed(requests)`totalLatency, Filed(requests)`actualStart, Filed(requests)`pushDelays
      modifies Filed(requests)`executionNode, Filed(requests)`executionNodeType
      modifies Filed(requests)`executionCompleted, Filed(requests)`execLatencies
      ensures forall a, b :: 0 <= a < b < |visited| ==> visited[a].0 <= visited[b].0 && visited[a] != visited[b]
      ensures forall t, n :: (t, n) in visited <==> t in requests && n in requests[t]
      ensures Wired() && FiledValid()
    {
      visited := Sweep(requests, Nodes(), jitter);
    }

    /** `defineExecutable`: offers the executable to every node of the three
        tiers, then registers it under its name. `ok` is false where the source
        throws because some node cannot hold it; the nodes offered before then
        keep it. */
    method DefineExecutable(size: real, name: string, storePrice: real, execLatency: int) returns (ok: bool)
      modifies Nodes()`executables, Nodes()`usedStorageCapacity, this`executables
      ensures var exe := Executable(size, name, storePrice, execLatency);
        ok <==> forall n :: n in Nodes() ==> Place(old(n.executables), old(n.usedStorageCapacity), exe, n.storageCapacity).stored
      ensures var exe := Executable(size, name, storePrice, execLatency);
        ok ==> forall n :: n in Nodes() ==>
          var p := Place(old(n.executables), old(n.usedStorageCapacity), exe, n.storageCapacity);
          n.executables == p.executables && n.usedStorageCapacity == p.used
      ensures ok ==> executables == old(executables)[name := Executable(size, name, storePrice, execLatency)]
      ensures !ok ==> executables == old(executables)
    {
      var exe := Executable(size, name, storePrice, execLatency);
      ok := OfferAll(Nodes(), exe);
      if !ok {
        return;
      }
      executables := executables[name := exe];
    }

    /** `requests.flatMap { it.value.flatMap { it.value } }`: the buckets one
        after the other, each (timestamp, node) pair once, in some order. */
    method Flatten() returns (all: seq<ExecRequest>, ghost slots: seq<(int, ComputeNode)>)
      ensures all == Gather(requests, slots)
      ensures forall a, b :: 0 <= a < b < |slots| ==> slots[a] != slots[b]
      ensures forall t, n :: (t, n) in slots <==> t in requests && n in requests[t]
    {
      all, slots := [], [];
      var keys := requests.Keys;
      while keys != {}
        invariant keys <= requests.Keys && all == Gather(requests, slots)
        invariant forall a, b :: 0 <= a < b < |slots| ==> slots[a] != slots[b]
        invariant forall t, n :: (t, n) in slots <==> t in requests && t !in keys && n in requests[t]
        decreases |keys|
      {
        InhabitedKeys(keys);
        var t :| t in keys;
        var nodeToReqList := requests[t];
        var nodes := nodeToReqList.Keys;
        while nodes != {}
          invariant nodes <= nodeToReqList.Keys && all == Gather(requests, slots)
          invariant forall a, b :: 0 <= a < b < |slots| ==> slots[a] != slots[b]
          invariant forall t', n :: (t', n) in slots <==>
                      t' in requests && (t' !in keys || (t' == t && n !in nodes)) && n in requests[t']
          decreases |nodes|
        {
          InhabitedNodes(nodes);
          var n :| n in nodes;
          assert (t, n) !in slots;
          assert (slots + [(t, n)])[..|slots|] == slots;
          all := all + nodeToReqList[n];
          slots := slots + [(t, n)];
          nodes := nodes - {n};
        }
        keys := keys - {t};
      }
    }

    /** The summary loop of `runSimulation`: over every filed request,
        executed or not, the least and greatest total latency, their 32-bit
        sum and the count; with no request the sentinels stay. */
    method RequestSummary() returns (min: int, max: int, sum: int, counter: int, ghost slots: seq<(int, ComputeNode)>)
      requires forall r :: r in Filed(requests) ==> IntMin <= r.totalLatency <= IntMax
      ensures forall t, n :: (t, n) in slots <==> t in requests && n in requests[t]
      ensures forall a, b :: 0 <= a < b < |slots| ==> slots[a] != slots[b]
      ensures counter == |Gather(requests, slots)| && sum == Wrap(Sum(Latencies(Gather(requests, slots))))
      ensures forall r :: r in Filed(requests) ==> min <= r.totalLatency <= max
      ensures Filed(requests) == {} ==> min == IntMax && max == IntMin
      ensures Filed(requests) != {} ==>
                (exists r :: r in Filed(requests) && r.totalLatency == min) &&
                (exists r :: r in Filed(requests) && r.totalLatency == max)
    {
      var all;
      all, slots := Flatten();
      GatherFiled(requests, slots);
      assert forall j :: 0 <= j < |all| ==> all[j] in Filed(requests);
      min, max, sum, counter := Summarize(all);
      if Filed(requests) != {} {
        var r :| r in Filed(requests);
        assert r in all;
      } else {
        NoneOutside(all, Filed(requests));
      }
    }

    /** `buildNode`: a fresh, unconnected node added to exactly the set of its
        type. */
    method BuildNode(nodeType: NodeType, storageCapacity: int, parallelRequestCapacity: int, name: string)
      returns (node: ComputeNode)
      modifies this`cloud, this`intermediary, this`edge
      ensures fresh(node) && fresh(node.utilization) && node.Ready() && node.parentNode == null
      ensures node.Above == [] && node.utilization.Length == node.simulationDuration
      ensures node.nodeType == nodeType && node.storageCapacity == storageCapacity
      ensures node.parallelRequestCapacity == parallelRequestCapacity && node.name == name
      ensures node.simulationDuration == config.simulationDuration
      ensures node.executables == [] && node.usedStorageCapacity == 0.0
      ensures edge == old(edge) + (if nodeType == Edge then {node} else {})
      ensures intermediary == old(intermediary) + (if nodeType == Intermediary then {node} else {})
      ensures cloud == old(cloud) + (if nodeType == Cloud then {node} else {})
    {
      node := new ComputeNode(nodeType, storageCapacity, parallelRequestCapacity, name, config.simulationDuration);
      match nodeType {
        case Edge => edge := edge + {node};
        case Intermediary => intermediary := intermediary + {node};
        case Cloud => cloud := cloud + {node};
      }
    }

    /** `buildCloudNode`: the cloud node has `Int.MAX_VALUE` storage and
        parallel capacity. */
    method BuildCloudNode() returns (node: ComputeNode)
      modifies this`cloud, this`intermediary, this`edge
      ensures fresh(node) && fresh(node.utilization) && node.Ready() && node.parentNode == null
      ensures node.Above == [] && node.utilization.Length == node.simulationDuration
      ensures node.nodeType == Cloud && node.name == "Cloud"
      ensures node.storageCapacity == IntMax && node.parallelRequestCapacity == IntMax
      ensures node.simulationDuration == config.simulationDuration
      ensures cloud == old(cloud) + {node} && intermediary == old(intermediary) && edge == old(edge)
    {
      node := BuildNode(Cloud, IntMax, IntMax, "Cloud");
    }

    /** `buildIntermediaryNode`, with the intermediary capacities. */
    method BuildIntermediaryNode(name: string) returns (node: ComputeNode)
      modifies this`cloud, this`intermediary, this`edge
      ensures fresh(node) && fresh(node.utilization) && node.Ready() && node.parentNode == null
      ensures node.Above == [] && node.utilization.Length == node.simulationDuration
      ensures node.nodeType == Intermediary && node.name == name
      ensures node.storageCapacity == config.storageCapacityIntermediary
      ensures node.parallelRequestCapacity == config.parallelRequestCapacityIntermediary
      ensures node.simulationDuration == config.simulationDuration
      ensures intermediary == old(intermediary) + {node} && cloud == old(cloud) && edge == old(edge)
    {
      node := BuildNode(Intermediary, config.storageCapacityIntermediary, config.parallelRequestCapacityIntermediary, name);
    }

    /** `buildEdgeNode`, with the edge capacities. */
    method BuildEdgeNode(name: string) returns (node: ComputeNode)
      modifies this`cloud, this`intermediary, this`edge
      ensures fresh(node) && fresh(node.utilization) && node.Ready() && node.parentNode == null
      ensures node.Above == [] && node.utilization.Length == node.simulationDuration
      ensures node.nodeType == Edge && node.name == name
      ensures node.storageCapacity == config.storageCapacityEdge
      ensures node.parallelRequestCapacity == config.parallelRequestCapacityEdge
      ensures node.simulationDuration == config.simulationDuration
      ensures edge == old(edge) + {node} && cloud == old(cloud) && intermediary == old(intermediary)
    {
      node := BuildNode(Edge, config.storageCapacityEdge, config.parallelRequestCapacityEdge, name);
    }

    /** `connectEdgeToIntermediary`. */
    method ConnectEdgeToIntermediary(node: ComputeNode, intermediary: ComputeNode)
      modifies node`parentNode, node`uplinkLatency, node`Above
      ensures node.parentNode == intermediary && node.uplinkLatency == config.avgEdge2IntermediaryLatency
      ensures node.Above == old(intermediary.Chain())
      ensures old(intermediary.Ready()) && node !in old(intermediary.Chain())
              && node.utilization.Length == node.simulationDuration
              && (forall k :: 0 <= k < |node.Above| ==> node.Above[k].utilization != node.utilization)
              ==> node.Ready()
    {
      node.ConnectTo(intermediary, config.avgEdge2IntermediaryLatency);
    }

    /** `connectIntermediaryToCloud`. */
    method ConnectIntermediaryToCloud(node: ComputeNode, cloud: ComputeNode)
      modifies node`parentNode, node`uplinkLatency, node`Above
      ensures node.parentNode == cloud && node.uplinkLatency == config.avgIntermediary2CloudLatency
      ensures node.Above == old(cloud.Chain())
      ensures old(cloud.Ready()) && node !in old(cloud.Chain())
              && node.utilization.Length == node.simulationDuration
              && (forall k :: 0 <= k < |node.Above| ==> node.Above[k].utilization != node.utilization)
              ==> node.Ready()
    {
      node.ConnectTo(cloud, config.avgIntermediary2CloudLatency);
    }

    /** `defineTopology`: one edge node below one intermediary below the
        cloud, all three ready for routing; on a simulator without nodes the
        result is wired. */
    method DefineTopology() returns (c: ComputeNode, i: ComputeNode, e: ComputeNode)
      modifies this`cloud, this`intermediary, this`edge
      ensures fresh(c) && fresh(i) && fresh(e)
      ensures cloud == old(cloud) + {c} && intermediary == old(intermediary) + {i} && edge == old(edge) + {e}
      ensures c.nodeType == Cloud && i.nodeType == Intermediary && e.nodeType == Edge
      ensures c.parentNode == null && i.parentNode == c && e.parentNode == i
      ensures i.uplinkLatency == config.avgIntermediary2CloudLatency
      ensures e.uplinkLatency == config.avgEdge2IntermediaryLatency
      ensures e.Chain() == [e, i, c] && i.Chain() == [i, c] && c.Chain() == [c]
      ensures c.Ready() && i.Ready() && e.Ready()
      ensures old(Nodes()) == {} ==> Wired()
    {
      c := BuildCloudNode();
      i := BuildIntermediaryNode("intermediary");
      e := BuildEdgeNode("edge");
      assert i.utilization != c.utilization;
      assert e.utilization != i.utilization && e.utilization != c.utilization;
      ConnectTiers(c, i, e);
      if old(Nodes()) == {} {
        WiredTiers(c, i, e);
      }
    }

    /** The two `connect*` calls of `defineTopology` on three distinct new
        nodes. */
    method ConnectTiers(c: ComputeNode, i: ComputeNode, e: ComputeNode)
      requires c.Ready() && c.Above == [] && c.parentNode == null
      requires i.Above == [] && e.Above == [] && i != c && e != i && e != c
      requires i.utilization.Length == i.simulationDuration && e.utilization.Length == e.simulationDuration
      requires i.utilization != c.utilization
      requires e.utilization != i.utilization && e.utilization != c.utilization
      modifies i`parentNode, i`uplinkLatency, i`Above, e`parentNode, e`uplinkLatency, e`Above
      ensures i.parentNode == c && e.parentNode == i
      ensures i.uplinkLatency == config.avgIntermediary2CloudLatency
      ensures e.uplinkLatency == config.avgEdge2IntermediaryLatency
      ensures e.Chain() == [e, i, c] && i.Chain() == [i, c] && c.Chain() == [c]
      ensures c.Ready() && i.Ready() && e.Ready()
    {
      assert c.Chain() == [c];
      ConnectIntermediaryToCloud(i, c);
      assert i.Above == [c];
      assert forall k :: 0 <= k < |i.Above| ==> i.Above[k].utilization != i.utilization;
      assert i.Ready() && i.Chain() == [i, c];
      ConnectEdgeToIntermediary(e, i);
      assert e.Above == [i, c];
      assert forall k :: 0 <= k < |e.Above| ==> e.Above[k].utilization != e.utilization;
      assert e.Ready();
      assert c.parentNode == null && c.Above == [] && c.Ready();
      assert i.parentNode == c && i.Above == [c] && i.Ready();
    }

    /** Three ready tiers that are all the nodes make a wired simulator. */
    lemma WiredTiers(c: ComputeNode, i: ComputeNode, e: ComputeNode)
      requires Nodes() == {c, i, e}
      requires e.Above == [i, c] && i.Above == [c] && c.Above == []
      requires c.Ready() && i.Ready() && e.Ready()
      ensures Wired()
    {
    }
  }
}
