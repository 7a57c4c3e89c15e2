/** A fog/edge/cloud compute node (ComputeNode.kt): an executable cache with
    a storage budget, a per-time-step utilization array, counters and
    earnings, and an optional parent towards the cloud. */
module Nodes {
  import opened Types
  import opened Requests
  import opened Ordering
  import opened Admission

  /** The utilization arrays of a sequence of nodes. */
  function Arrays(nodes: seq<ComputeNode>): set<array<int>>
  {
    if nodes == [] then {} else {nodes[0].utilization} + Arrays(nodes[1..])
  }

  lemma {:induction false} InArrays(nodes: seq<ComputeNode>, a: array<int>)
    ensures a in Arrays(nodes) <==> exists k :: 0 <= k < |nodes| && nodes[k].utilization == a
  {
    if nodes != [] {
      InArrays(nodes[1..], a);
      if a in Arrays(nodes[1..]) {
        var k :| 0 <= k < |nodes[1..]| && nodes[1..][k].utilization == a;
        assert nodes[k + 1].utilization == a;
      }
      if exists k :: 0 <= k < |nodes| && nodes[k].utilization == a {
        var k :| 0 <= k < |nodes| && nodes[k].utilization == a;
        if k > 0 {
          assert nodes[1..][k - 1].utilization == a;
        }
      }
    }
  }

  /** The sort key of `offerRequests`: descending bid price. */
  function NegPrice(r: ExecRequest): real
  {
    -r.execPrice
  }

  /** The order `offerRequests` offers a batch in: every request once, with
      non-increasing bids. */
  lemma OfferOrder(requests: seq<ExecRequest>)
    ensures var sorted := SortedBy(requests, NegPrice);
      && multiset(sorted) == multiset(requests)
      && (forall i, j :: 0 <= i < j < |sorted| ==> sorted[i].execPrice >= sorted[j].execPrice)
  {
    var sorted := SortedBy(requests, NegPrice);
    SortedByPermutation(requests, NegPrice);
    SortedByAscending(requests, NegPrice);
    forall i, j | 0 <= i < j < |sorted| ensures sorted[i].execPrice >= sorted[j].execPrice {
      assert NegPrice(sorted[i]) <= NegPrice(sorted[j]);
    }
  }

  /** Requests with the same bid `v` are offered in their batch order. */
  lemma OfferOrderStable(requests: seq<ExecRequest>, v: real)
    ensures Filter(SortedBy(requests, NegPrice), (r: ExecRequest) => r.execPrice == v)
         == Filter(requests, (r: ExecRequest) => r.execPrice == v)
  {
    SortedByStable(requests, NegPrice, (r: ExecRequest) => r.execPrice == v, -v);
  }

  /** The demands a price-ordered batch places, `jitter(r)` being the values
      drawn for request `r` at the nodes it visits. */
  function Demands(rs: seq<ExecRequest>, jitter: ExecRequest -> seq<nat>): (d: seq<Demand>)
    ensures |d| == |rs|
  {
    seq(|rs|, i requires 0 <= i < |rs| => Demand(rs[i].executable, rs[i].execPrice, jitter(rs[i])))
  }

  /** When no request is listed twice, the first `i` requests are in their
      states `post` and the others still in their states `pre`. */
  ghost predicate Traced(requests: seq<ExecRequest>, pre: seq<RequestState>, post: seq<RequestState>, i: nat)
    reads requests
  {
    && i <= |requests| == |pre| == |post|
    && (Distinct(requests) ==>
          && (forall j :: 0 <= j < i ==> requests[j].State() == post[j])
          && (forall j :: i <= j < |requests| ==> requests[j].State() == pre[j]))
  }

  /** After the last turn over a batch of distinct requests, each request
      has been routed along the chain from its state in `pre`. */
  lemma FinalRouted(timestamp: nat, requests: seq<ExecRequest>, jitter: ExecRequest -> seq<nat>,
                    start: seq<NodeView>, pre: seq<RequestState>, post: seq<RequestState>)
    requires Distinct(requests) && Traced(requests, pre, post, |requests|)
    requires BatchRoutable(start, Demands(requests, jitter)) && post == Turns(start, timestamp, Demands(requests, jitter), pre)
    ensures forall j :: 0 <= j < |requests| ==> Routed(pre[j], requests[j].State(), StopsOf(start), jitter(requests[j]))
  {
    var batch := Demands(requests, jitter);
    BatchRouted(start, timestamp, batch, pre);
    assert forall j :: 0 <= j < |requests| ==> batch[j].hops == jitter(requests[j]);
  }

  /** The node views of a sequence of nodes, in order. */
  ghost function Views(nodes: seq<ComputeNode>): (r: seq<NodeView>)
    reads nodes`executables, nodes`earnings, nodes`requestsProcessed, nodes`requestsPushedUp, Arrays(nodes)
    ensures |r| == |nodes|
  {
    if nodes == [] then [] else [nodes[0].View()] + Views(nodes[1..])
  }

  /** Views only depend on the node fields and utilization contents they
      read: if none of those changed, neither did the views. */
  twostate lemma {:induction false} ViewsUnchanged(nodes: seq<ComputeNode>)
    requires forall k :: 0 <= k < |nodes| ==>
      && old(nodes[k].executables) == nodes[k].executables && old(nodes[k].earnings) == nodes[k].earnings
      && old(nodes[k].requestsProcessed) == nodes[k].requestsProcessed
      && old(nodes[k].requestsPushedUp) == nodes[k].requestsPushedUp
      && old(nodes[k].utilization[..]) == nodes[k].utilization[..]
    ensures Views(nodes) == old(Views(nodes))
  {
    if nodes != [] {
      ViewsUnchanged(nodes[1..]);
    }
  }


  /** The states of `rs`, in order. */
  ghost function States(rs: seq<ExecRequest>): (s: seq<RequestState>)
    reads rs
    ensures |s| == |rs| && forall j :: 0 <= j < |rs| ==> s[j] == rs[j].State()
  {
    seq(|rs|, j reads rs requires 0 <= j < |rs| => rs[j].State())
  }

  class ComputeNode {
    const nodeType: NodeType
    const storageCapacity: int
    const parallelRequestCapacity: int
    const name: string
    const simulationDuration: nat
    var uplinkLatency: int
    var parentNode: ComputeNode?
    /** The insertion-ordered executable set. */
    var executables: seq<Executable>
    var usedStorageCapacity: real
    const utilization: array<int>
    var earnings: real
    var requestsProcessed: int
    var requestsPushedUp: int
    /** The ancestors of this node: its parent, the parent's parent, and so
        on up to a node without parent. */
    ghost var Above: seq<ComputeNode>

    /** This node followed by its ancestors: the nodes a request offered here
        may visit, in order. */
    ghost function Chain(): seq<ComputeNode>
      reads this`Above
    {
      [this] + Above
    }

    /** `Above` follows the parent pointers. */
    ghost predicate ChainValid()
      reads this`parentNode, this`Above, Above`parentNode, Above`Above
      decreases |Above|
    {
      if parentNode == null then Above == []
      else
        && Above != [] && Above[0] == parentNode && parentNode.Above == Above[1..]
        && parentNode.ChainValid()
    }

    /** The invariant request routing needs: a finite, acyclic parent chain
        whose nodes own distinct utilization arrays of their horizon's length. */
    ghost predicate Ready()
      reads this`parentNode, this`Above, Above`parentNode, Above`Above
    {
      && ChainValid()
      && (forall i, j :: 0 <= i < j < |Chain()| ==> Chain()[i] != Chain()[j])
      && (forall i, j :: 0 <= i < j < |Chain()| ==> Chain()[i].utilization != Chain()[j].utilization)
      && (forall i :: 0 <= i < |Chain()| ==> Chain()[i].utilization.Length == Chain()[i].simulationDuration)
    }

    /** No ancestor of a ready node is the node itself or shares its
        utilization array, whose length is the horizon. */
    lemma NotAbove()
      requires Ready()
      ensures utilization.Length == simulationDuration
      ensures forall k :: 0 <= k < |Above| ==> Above[k] != this && Above[k].utilization != utilization
    {
      assert Chain()[0] == this;
      forall k | 0 <= k < |Above|
        ensures Above[k] != this && Above[k].utilization != utilization
      {
        assert Chain()[k + 1] == Above[k];
      }
    }

    /** The parent of a ready node is ready, and its chain is this node's
        ancestors. */
    lemma ParentReady()
      requires Ready()
      ensures this !in Above && utilization !in Arrays(Above)
      ensures parentNode != null ==> parentNode.Ready() && parentNode.Chain() == Above
    {
      NotAbove();
      InArrays(Above, utilization);
      if parentNode != null {
        var p := parentNode;
        assert p.Chain() == Above;
        assert forall k :: 0 <= k < |p.Chain()| ==> p.Chain()[k] == Chain()[k + 1];
      }
    }

    /** What request admission reads and writes here. */
    ghost function View(): NodeView
      reads this`executables, this`earnings, this`requestsProcessed, this`requestsPushedUp, utilization
    {
      NodeView(nodeType, name, parallelRequestCapacity, simulationDuration, executables,
               utilization[..], earnings, requestsProcessed, requestsPushedUp)
    }

    /** The views of this node and its ancestors, in chain order. */
    ghost function ChainViews(): (r: seq<NodeView>)
      reads this`Above, this`executables, this`earnings, this`requestsProcessed, this`requestsPushedUp, utilization
      reads Above`executables, Above`earnings, Above`requestsProcessed, Above`requestsPushedUp, Arrays(Above)
      ensures |r| == |Chain()|
    {
      [View()] + Views(Above)
    }

    constructor (nodeType: NodeType, storageCapacity: int, parallelRequestCapacity: int, name: string, simulationDuration: nat)
      ensures this.nodeType == nodeType && this.storageCapacity == storageCapacity
      ensures this.parallelRequestCapacity == parallelRequestCapacity && this.name == name
      ensures this.simulationDuration == simulationDuration
      ensures uplinkLatency == 0 && parentNode == null && Above == []
      ensures executables == [] && usedStorageCapacity == 0.0
      ensures utilization[..] == seq(simulationDuration, _ => 0)
      ensures earnings == 0.0 && requestsProcessed == 0 && requestsPushedUp == 0
      ensures fresh(utilization) && Ready()
    {
      this.nodeType := nodeType;
      this.storageCapacity := storageCapacity;
      this.parallelRequestCapacity := parallelRequestCapacity;
      this.name := name;
      this.simulationDuration := simulationDuration;
      uplinkLatency := 0;
      parentNode := null;
      executables := [];
      usedStorageCapacity := 0.0;
      utilization := new int[simulationDuration](_ => 0);
      earnings := 0.0;
      requestsProcessed := 0;
      requestsPushedUp := 0;
      Above := [];
    }

    /** `offerExecutable`: evicts the cheapest cached executables until
        `newOne` fits, then caches it and charges its size. `stored` is false
        where the source throws because the cache ran empty first. */
    method OfferExecutable(newOne: Executable) returns (stored: bool)
      modifies this`executables, this`usedStorageCapacity
      ensures var p := Place(old(executables), old(usedStorageCapacity), newOne, storageCapacity);
        executables == p.executables && usedStorageCapacity == p.used && stored == p.stored
      ensures stored && newOne !in old(executables) ==>
        GetEarningStats().1 == old(GetEarningStats().1)
                               - StorePrices(Place(old(executables), old(usedStorageCapacity), newOne, storageCapacity).evicted)
                               + newOne.storePrice
    {
      if newOne !in executables {
        PlaceStorePrices(executables, usedStorageCapacity, newOne, storageCapacity);
      }
      ghost var evicted: seq<Executable> := [];
      while usedStorageCapacity + newOne.size > storageCapacity as real
        invariant EvictFrom(executables, usedStorageCapacity, newOne.size, storageCapacity, evicted)
               == Evict(old(executables), old(usedStorageCapacity), newOne.size, storageCapacity)
        decreases |executables|
      {
        if executables == [] {
          return false;
        }
        var i := CheapestIndex(executables);
        usedStorageCapacity := usedStorageCapacity - executables[i].size;
        evicted := evicted + [executables[i]];
        executables := RemoveAt(executables, i);
      }
      if newOne !in executables {
        executables := executables + [newOne];
      }
      usedStorageCapacity := usedStorageCapacity + newOne.size;
      stored := true;
    }

    /** `checkUtilization`: admission's capacity test `HasCapacity` on this
        node's own slots. `AdmitsWithinCapacity` states what passing it
        guarantees, `LaterSlotMayOverflow` what it does not. */
    function CheckUtilization(timestamp: nat, duration: int): (b: bool)
      reads this, utilization
      requires utilization.Length == simulationDuration
      ensures b == HasCapacity(View().utilization, parallelRequestCapacity, simulationDuration, timestamp, duration)
    {
      if timestamp + duration >= simulationDuration then false
      else timestamp < utilization.Length && utilization[timestamp] < parallelRequestCapacity
    }

    /** `processRequest` with the drawn execution latency `latency`. */
    method ProcessRequest(timestamp: nat, request: ExecRequest, latency: nat)
      requires utilization.Length == simulationDuration && request.Valid()
      modifies this`earnings, this`requestsProcessed, utilization
      modifies request`totalLatency, request`executionNode, request`executionNodeType, request`executionCompleted, request`execLatencies
      ensures View() == Process(old(View()), timestamp, request.execPrice, latency)
      ensures request.State() == Executed(old(request.State()), name, nodeType, latency)
      ensures request.Valid()
    {
      ghost var before, req := View(), request.State();
      var end := Min(timestamp + latency, simulationDuration);
      var x := timestamp;
      while x < end
        invariant timestamp <= x && (x <= end || x == timestamp)
        invariant forall i :: 0 <= i < utilization.Length ==>
                    utilization[i] == if timestamp <= i < x then before.utilization[i] + 1 else before.utilization[i]
        modifies utilization
      {
        utilization[x] := utilization[x] + 1;
        x := x + 1;
      }
      assert utilization[..] == Occupy(before.utilization, timestamp, end);
      request.Execute(name, nodeType, latency);
      earnings := earnings + request.execPrice;
      requestsProcessed := requestsProcessed + 1;
      assert View() == Process(before, timestamp, request.execPrice, latency);
    }

    /** `getRequestStats`: the processed and pushed-up counters, which
        `OneCounterPerOffer` and `RouteAllCounts` relate to the offers made. */
    function GetRequestStats(): (stats: (int, int))
      reads this`requestsProcessed, this`requestsPushedUp, this`executables, this`earnings, utilization
      ensures stats == (View().processed, View().pushedUp)
    {
      (requestsProcessed, requestsPushedUp)
    }

    /** `getEarningStats`: the processing earnings, which `RouteEarnings`
        relates to the bids routed, and the storage fees of the cached
        executables, which `PlaceStorePrices` relates to placements. */
    function GetEarningStats(): (stats: (real, real))
      reads this`earnings, this`executables, this`requestsProcessed, this`requestsPushedUp, utilization
      ensures stats == (View().earnings, StorePrices(View().executables))
    {
      (earnings, StorePrices(executables))
    }

    /** `offerRequests`: offers every request of the batch here, highest bid
        first (equal bids in batch order), all at `timestamp`; `jitter(r)`
        holds the values drawn for `r` along the chain. Each offer bumps one
        of this node's two counters, and each request listed once is routed
        along the chain from the state it was in. */
    method OfferRequests(timestamp: nat, requests: seq<ExecRequest>, jitter: ExecRequest -> seq<nat>)
      requires Ready()
      requires forall r :: r in requests ==> r.Valid() && |jitter(r)| >= |Chain()|
      modifies this`earnings, this`requestsProcessed, this`requestsPushedUp, utilization
      modifies Above`earnings, Above`requestsProcessed, Above`requestsPushedUp, Arrays(Above)
      modifies requests`totalLatency, requests`actualStart, requests`pushDelays
      modifies requests`executionNode, requests`executionNodeType, requests`executionCompleted, requests`execLatencies
      ensures BatchRoutable(old(ChainViews()), Demands(SortedBy(requests, NegPrice), jitter))
      ensures ChainViews() == RouteAll(old(ChainViews()), timestamp, Demands(SortedBy(requests, NegPrice), jitter))
      ensures GetRequestStats().0 + GetRequestStats().1 == old(GetRequestStats().0 + GetRequestStats().1) + |requests|
      ensures forall r :: r in requests ==> r.Valid()
      ensures Distinct(requests) ==> forall r :: r in requests ==> Routed(old(r.State()), r.State(), StopsOf(old(ChainViews())), jitter(r))
    {
      var sorted := SortedBy(requests, NegPrice);
      SortedByMembers(requests, NegPrice);
      OfferBatch(timestamp, sorted, jitter);
      if Distinct(requests) {
        SortedByDistinct(requests, NegPrice);
        forall r | r in requests ensures Routed(old(r.State()), r.State(), StopsOf(old(ChainViews())), jitter(r)) {
          var j :| 0 <= j < |sorted| && sorted[j] == r;
        }
      }
    }

    /** Offers the requests in the given order, each seeing what the earlier
        ones left: the chain ends as routing the batch in turn prescribes, and
        each request listed once is routed along the chain. */
    method OfferBatch(timestamp: nat, requests: seq<ExecRequest>, jitter: ExecRequest -> seq<nat>)
      requires Ready()
      requires forall r :: r in requests ==> r.Valid() && |jitter(r)| >= |Chain()|
      modifies this`earnings, this`requestsProcessed, this`requestsPushedUp, utilization
      modifies Above`earnings, Above`requestsProcessed, Above`requestsPushedUp, Arrays(Above)
      modifies requests`totalLatency, requests`actualStart, requests`pushDelays
      modifies requests`executionNode, requests`executionNodeType, requests`executionCompleted, requests`execLatencies
      ensures BatchRoutable(old(ChainViews()), Demands(requests, jitter))
      ensures ChainViews() == RouteAll(old(ChainViews()), timestamp, Demands(requests, jitter))
      ensures GetRequestStats().0 + GetRequestStats().1 == old(GetRequestStats().0 + GetRequestStats().1) + |requests|
      ensures forall r :: r in requests ==> r.Valid()
      ensures Distinct(requests) ==> forall j :: 0 <= j < |requests| ==>
                Routed(old(requests[j].State()), requests[j].State(), StopsOf(old(ChainViews())), jitter(requests[j]))
    {
      ghost var start, pre := ChainViews(), States(requests);
      ghost var batch := Demands(requests, jitter);
      assert BatchRoutable(start, batch);
      assert batch[..0] == [];
      ghost var post := Turns(start, timestamp, batch, pre);
      OfferInOrder(timestamp, requests, jitter, start, pre, post);
      assert batch[..|requests|] == batch;
      RouteAllCounts(start, timestamp, batch);
      if Distinct(requests) {
        FinalRouted(timestamp, requests, jitter, start, pre, post);
      }
    }

    /** The `forEach` of `offerRequests`: offers the requests one by one,
        keeping `InTurn` from the first turn to the last. */
    method OfferInOrder(timestamp: nat, requests: seq<ExecRequest>, jitter: ExecRequest -> seq<nat>,
                        ghost start: seq<NodeView>, ghost pre: seq<RequestState>, ghost post: seq<RequestState>)
      requires Batch(timestamp, requests, jitter, start, pre, post)
      requires InTurn(timestamp, requests, jitter, start, pre, post, 0)
      modifies this`earnings, this`requestsProcessed, this`requestsPushedUp, utilization
      modifies Above`earnings, Above`requestsProcessed, Above`requestsPushedUp, Arrays(Above)
      modifies requests`totalLatency, requests`actualStart, requests`pushDelays
      modifies requests`executionNode, requests`executionNodeType, requests`executionCompleted, requests`execLatencies
      ensures InTurn(timestamp, requests, jitter, start, pre, post, |requests|)
    {
      var i: nat := 0;
      // Each invariant is compared with `true` so that it is carried as one
      // fact rather than split into its many conjuncts.
      while i < |requests|
        invariant i <= |requests| && Batch(timestamp, requests, jitter, start, pre, post) == true
        invariant InTurn(timestamp, requests, jitter, start, pre, post, i) == true
      {
        OfferNth(timestamp, requests, jitter, i, start, pre, post);
        i := i + 1;
      }
    }

    /** What holds throughout the `forEach` of `offerRequests`: the chain is
        ready, every request has a draw for each of its nodes, and `post`
        holds the states routing in turn gives from `pre`. */
    ghost predicate Batch(timestamp: nat, requests: seq<ExecRequest>, jitter: ExecRequest -> seq<nat>,
                          start: seq<NodeView>, pre: seq<RequestState>, post: seq<RequestState>)
      reads this`parentNode, this`Above, Above`parentNode, Above`Above
    {
      && Ready()
      && (forall r :: r in requests ==> |jitter(r)| >= |Chain()|)
      && BatchRoutable(start, Demands(requests, jitter))
      && |requests| == |pre|
      && post == Turns(start, timestamp, Demands(requests, jitter), pre)
    }

    /** Where the `forEach` of `offerRequests` stands after `i` turns: the
        chain shows the first `i` requests routed in order, every request is
        consistent, and, when no request is listed twice, the first `i` are in
        the states routing gave them and the others are untouched. */
    ghost predicate InTurn(timestamp: nat, requests: seq<ExecRequest>, jitter: ExecRequest -> seq<nat>,
                           start: seq<NodeView>, pre: seq<RequestState>, post: seq<RequestState>, i: nat)
      reads this`Above, this`executables, this`earnings, this`requestsProcessed, this`requestsPushedUp, utilization
      reads Above`executables, Above`earnings, Above`requestsProcessed, Above`requestsPushedUp, Arrays(Above)
      reads requests
    {
      && i <= |requests|
      && BatchRoutable(start, Demands(requests, jitter)[..i])
      && ChainViews() == RouteAll(start, timestamp, Demands(requests, jitter)[..i])
      && (forall r :: r in requests ==> r.Valid())
      && Traced(requests, pre, post, i)
    }

    /** One turn of the `forEach`: the `i`-th request is offered and `InTurn`
        moves on by one; `Batch` only reads parent links, which no offer
        changes. */
    method OfferNth(timestamp: nat, requests: seq<ExecRequest>, jitter: ExecRequest -> seq<nat>, i: nat,
                    ghost start: seq<NodeView>, ghost pre: seq<RequestState>, ghost post: seq<RequestState>)
      requires i < |requests| && Batch(timestamp, requests, jitter, start, pre, post)
      requires InTurn(timestamp, requests, jitter, start, pre, post, i)
      modifies this`earnings, this`requestsProcessed, this`requestsPushedUp, utilization
      modifies Above`earnings, Above`requestsProcessed, Above`requestsPushedUp, Arrays(Above)
      modifies {requests[i]}`totalLatency, {requests[i]}`actualStart, {requests[i]}`pushDelays
      modifies {requests[i]}`executionNode, {requests[i]}`executionNodeType, {requests[i]}`executionCompleted, {requests[i]}`execLatencies
      ensures Batch(timestamp, requests, jitter, start, pre, post) == old(Batch(timestamp, requests, jitter, start, pre, post))
      ensures InTurn(timestamp, requests, jitter, start, pre, post, i + 1)
    {
      ghost var batch := Demands(requests, jitter);
      assert BatchRoutable(start, batch[..i + 1]) by {
        assert forall j :: 0 <= j <= i ==> batch[..i + 1][j] == batch[j];
      }
      OfferTurn(timestamp, requests, jitter, i, start, batch, pre, post);
    }

    /** Offers the `i`-th request of the batch, which ends in the state its
        turn prescribes; no other request is touched. */
    method OfferTurn(timestamp: nat, requests: seq<ExecRequest>, jitter: ExecRequest -> seq<nat>, i: nat,
                     ghost start: seq<NodeView>, ghost batch: seq<Demand>, ghost pre: seq<RequestState>, ghost post: seq<RequestState>)
      requires Ready() && i < |requests| == |pre|
      requires forall r :: r in requests ==> r.Valid() && |jitter(r)| >= |Chain()|
      requires batch == Demands(requests, jitter) && BatchRoutable(start, batch)
      requires post == Turns(start, timestamp, batch, pre) && Traced(requests, pre, post, i)
      requires ChainViews() == RouteAll(start, timestamp, batch[..i])
      modifies this`earnings, this`requestsProcessed, this`requestsPushedUp, utilization
      modifies Above`earnings, Above`requestsProcessed, Above`requestsPushedUp, Arrays(Above)
      modifies {requests[i]}`totalLatency, {requests[i]}`actualStart, {requests[i]}`pushDelays
      modifies {requests[i]}`executionNode, {requests[i]}`executionNodeType, {requests[i]}`executionCompleted, {requests[i]}`execLatencies
      ensures ChainViews() == RouteAll(start, timestamp, batch[..i + 1])
      ensures forall r :: r in requests ==> r.Valid()
      ensures Traced(requests, pre, post, i + 1)
    {
      var r := requests[i];
      RouteAllStep(start, timestamp, batch, i);
      TurnsAt(start, timestamp, batch, pre, i);
      OfferTraced(timestamp, requests, i, jitter(r), pre, post);
    }

    /** `offerRequest` on the `i`-th request of the batch, which ends in the
        state `post[i]`; no other request is touched. */
    method OfferTraced(timestamp: nat, requests: seq<ExecRequest>, i: nat, hops: seq<nat>,
                       ghost pre: seq<RequestState>, ghost post: seq<RequestState>)
      requires Ready() && i < |requests| && |hops| >= |Chain()| && forall r :: r in requests ==> r.Valid()
      requires Traced(requests, pre, post, i) && Routable(ChainViews(), hops)
      requires Distinct(requests) ==> post[i] == RouteRequest(ChainViews(), timestamp, requests[i].executable, pre[i], hops)
      modifies this`earnings, this`requestsProcessed, this`requestsPushedUp, utilization
      modifies Above`earnings, Above`requestsProcessed, Above`requestsPushedUp, Arrays(Above)
      modifies {requests[i]}`totalLatency, {requests[i]}`actualStart, {requests[i]}`pushDelays
      modifies {requests[i]}`executionNode, {requests[i]}`executionNodeType, {requests[i]}`executionCompleted, {requests[i]}`execLatencies
      ensures ChainViews() == Route(old(ChainViews()), timestamp, requests[i].executable, requests[i].execPrice, hops)
      ensures forall r :: r in requests ==> r.Valid()
      ensures Traced(requests, pre, post, i + 1)
    {
      if Distinct(requests) {
        assert forall j :: 0 <= j < |requests| && j != i ==> requests[j] != requests[i];
      }
      OfferRequest(timestamp, requests[i], hops);
    }

    /** `offerRequest`: processes the request here or pushes it to the parent,
        which is offered it at the delayed time; `hops[i]` is the value drawn
        at the i-th node of the chain. */
    method OfferRequest(timestamp: nat, request: ExecRequest, hops: seq<nat>)
      requires Ready() && request.Valid() && |hops| >= |Chain()|
      modifies this`earnings, this`requestsProcessed, this`requestsPushedUp, utilization
      modifies Above`earnings, Above`requestsProcessed, Above`requestsPushedUp, Arrays(Above)
      modifies request`totalLatency, request`actualStart, request`pushDelays
      modifies request`executionNode, request`executionNodeType, request`executionCompleted, request`execLatencies
      ensures ChainViews() == Route(old(ChainViews()), timestamp, request.executable, request.execPrice, hops)
      ensures request.State() == RouteRequest(old(ChainViews()), timestamp, request.executable, old(request.State()), hops)
      ensures request.Valid()
      decreases |Above|, 3
    {
      ghost var chain, req := ChainViews(), request.State();
      NotAbove();
      var isCloud := nodeType == Cloud;
      var hasCpuCapacityLeft := CheckUtilization(timestamp, request.executable.execLatency);
      var executableExists := request.executable in executables;
      if isCloud || (executableExists && hasCpuCapacityLeft) {
        assert Admits(View(), timestamp, request.executable);
        Accept(timestamp, request, hops, chain, req);
      } else {
        assert !Admits(View(), timestamp, request.executable);
        Refuse(timestamp, request, hops, chain, req);
      }
    }

    /** The refusing branch of `offerRequest`, on the whole chain. */
    method Refuse(timestamp: nat, request: ExecRequest, hops: seq<nat>, ghost chain: seq<NodeView>, ghost req: RequestState)
      requires Ready() && request.Valid() && |hops| >= |Chain()|
      requires chain == [View()] + Views(Above) && req == request.State() && !Admits(View(), timestamp, request.executable)
      modifies this`requestsPushedUp
      modifies Above`earnings, Above`requestsProcessed, Above`requestsPushedUp, Arrays(Above)
      modifies request`totalLatency, request`actualStart, request`pushDelays
      modifies request`executionNode, request`executionNodeType, request`executionCompleted, request`execLatencies
      ensures [View()] + Views(Above) == Route(chain, timestamp, request.executable, request.execPrice, hops)
      ensures request.State() == RouteRequest(chain, timestamp, request.executable, req, hops)
      ensures request.Valid()
      decreases |Above|, 2
    {
      ghost var here, rest := View(), Views(Above);
      RoutePushes(chain, here, rest, timestamp, request.executable, request.execPrice, req, hops);
      ghost var above := Route(rest, timestamp + hops[0], request.executable, request.execPrice, hops[1..]);
      ghost var after := RouteRequest(rest, timestamp + hops[0], request.executable, Pushed(req, hops[0]), hops[1..]);
      PushUp(timestamp, request, hops[0], hops[1..], rest, req, above, after);
    }

    /** The admitting branch of `offerRequest`: run the request here, with
        the value drawn at this node as its latency. */
    method Accept(timestamp: nat, request: ExecRequest, hops: seq<nat>, ghost chain: seq<NodeView>, ghost req: RequestState)
      requires Ready() && request.Valid() && |hops| >= |Chain()|
      requires chain == ChainViews() && req == request.State() && Admits(View(), timestamp, request.executable)
      modifies this`earnings, this`requestsProcessed, utilization
      modifies request`totalLatency, request`executionNode, request`executionNodeType, request`executionCompleted, request`execLatencies
      ensures ChainViews() == Route(chain, timestamp, request.executable, request.execPrice, hops)
      ensures request.State() == RouteRequest(chain, timestamp, request.executable, req, hops)
      ensures request.Valid()
    {
      ghost var here, rest := View(), Views(Above);
      NotAbove();
      ProcessRequest(timestamp, request, hops[0]);
      ViewsUnchanged(Above);
      RouteProcesses(chain, here, rest, timestamp, request.executable, request.execPrice, req, hops);
    }

    /** The refusing branch of `offerRequest`: charge the drawn uplink delay
        `delay`, count the push, and offer the request to the parent, if any,
        at the delayed time. */
    method PushUp(timestamp: nat, request: ExecRequest, delay: nat, hops: seq<nat>, ghost rest: seq<NodeView>, ghost req: RequestState,
                  ghost above: seq<NodeView>, ghost after: RequestState)
      requires Ready() && request.Valid() && |hops| >= |Above|
      requires rest == Views(Above) && req == request.State()
      requires above == Route(rest, timestamp + delay, request.executable, request.execPrice, hops)
      requires after == RouteRequest(rest, timestamp + delay, request.executable, Pushed(req, delay), hops)
      modifies this`requestsPushedUp
      modifies Above`earnings, Above`requestsProcessed, Above`requestsPushedUp, Arrays(Above)
      modifies request`totalLatency, request`actualStart, request`pushDelays
      modifies request`executionNode, request`executionNodeType, request`executionCompleted, request`execLatencies
      ensures View() == Push(old(View())) && Views(Above) == above && request.State() == after
      ensures request.Valid()
      decreases |Above|, 1
    {
      NotAbove();
      ghost var here := View();
      request.PushTowardsCloud(delay);
      ghost var pushed := request.State();
      assert pushed == Pushed(req, delay);
      assert utilization[..] == here.utilization;
      requestsPushedUp := requestsPushedUp + 1;
      assert View() == Push(here);
      ViewsUnchanged(Above);
      Forward(timestamp + delay, request, hops, rest, pushed, above, after);
    }

    /** `parentNode?.offerRequest(...)`: a node without parent drops the
        request; otherwise the parent routes it along its own chain. */
    method Forward(timestamp: nat, request: ExecRequest, hops: seq<nat>, ghost rest: seq<NodeView>, ghost req: RequestState,
                   ghost above: seq<NodeView>, ghost after: RequestState)
      requires Ready() && request.Valid() && |hops| >= |Above|
      requires rest == Views(Above) && req == request.State()
      requires above == Route(rest, timestamp, request.executable, request.execPrice, hops)
      requires after == RouteRequest(rest, timestamp, request.executable, req, hops)
      modifies Above`earnings, Above`requestsProcessed, Above`requestsPushedUp, Arrays(Above)
      modifies request`totalLatency, request`actualStart, request`pushDelays
      modifies request`executionNode, request`executionNodeType, request`executionCompleted, request`execLatencies
      ensures View() == old(View()) && Views(Above) == above && request.State() == after
      ensures request.Valid()
      decreases |Above|, 0
    {
      ParentReady();
      if parentNode != null {
        var p := parentNode;
        assert p.Chain() == Above;
        assert forall n :: n in p.Above ==> n in Above;
        assert Arrays(Above) == {p.utilization} + Arrays(p.Above);
        assert rest == p.ChainViews();
        p.OfferRequest(timestamp, request, hops);
        assert Views(Above) == p.ChainViews();
        assert earnings == old(earnings) && requestsProcessed == old(requestsProcessed);
        assert utilization[..] == old(utilization[..]);
      } else {
        assert Above == [];
      }
    }

    /** `connectTo`: makes `other` the parent, reached with `latency`. The
        node is ready afterwards when `other` is, is not on `other`'s chain,
        and shares no utilization array with it. */
    method ConnectTo(other: ComputeNode, latency: int)
      modifies this`parentNode, this`uplinkLatency, this`Above
      ensures parentNode == other && uplinkLatency == latency && Above == old(other.Chain())
      ensures old(other.Ready()) && this !in old(other.Chain()) && utilization.Length == simulationDuration
              && (forall k :: 0 <= k < |Above| ==> Above[k].utilization != utilization)
              ==> Ready()
    {
      ghost var wasReady := other.Ready();
      parentNode := other;
      uplinkLatency := latency;
      Above := other.Chain();
      if wasReady && this !in Above && utilization.Length == simulationDuration
         && (forall k :: 0 <= k < |Above| ==> Above[k].utilization != utilization)
      {
        assert other.Ready();
        assert Above[1..] == other.Above;
        assert ChainValid();
        var c, oc := Chain(), other.Chain();
        assert forall k :: 0 <= k < |oc| ==> c[k + 1] == oc[k];
        forall i, j | 0 <= i < j < |c| ensures c[i] != c[j] && c[i].utilization != c[j].utilization {
          if i > 0 {
            assert oc[i - 1] != oc[j - 1];
          } else {
            assert c[j] == oc[j - 1];
          }
        }
        forall i | 0 <= i < |c| ensures c[i].utilization.Length == c[i].simulationDuration {
          if i > 0 {
            assert c[i] == oc[i - 1];
          }
        }
      }
    }
  }
}
