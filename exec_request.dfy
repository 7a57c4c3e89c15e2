/** Executables and execution requests (ExecRequest.kt). */
module Requests {
  import opened Types

  /** An immutable deployable function: storage footprint, name, storage
      price and nominal execution latency. Sizes and prices are exact reals. */
  datatype Executable = Executable(size: real, name: string, storePrice: real, execLatency: int)

  /** The executing-node name of a request that has not run. */
  const NotExecuted: string := "not executed"

  /** The mutable part of an execution request as a value. The two ghost
      histories record every uplink delay and every execution latency the
      request has been charged, in order. */
  datatype RequestState = RequestState(
    totalLatency: int,
    actualStart: int,
    executionNode: string,
    executionNodeType: Option<NodeType>,
    executionCompleted: bool,
    pushDelays: seq<int>,
    execLatencies: seq<int>)

  /** The state of a request just created for a planned start. */
  function Initial(plannedStart: int): RequestState
  {
    RequestState(0, plannedStart, NotExecuted, None, false, [], [])
  }

  /** The state after `pushTowardsCloud(latency)`. */
  function Pushed(s: RequestState, latency: int): RequestState
  {
    s.(totalLatency := s.totalLatency + latency,
       actualStart := s.actualStart + latency,
       pushDelays := s.pushDelays + [latency])
  }

  /** The state after `pushTowardsCloud` with each delay of `d` in turn. */
  function PushedAll(s: RequestState, d: seq<int>): RequestState
    decreases |d|
  {
    if d == [] then s else PushedAll(Pushed(s, d[0]), d[1..])
  }

  /** A series of pushes adds the sum of the delays to the total latency
      and to the actual start, and records the delays in order. */
  lemma {:induction false} PushedAllAccumulates(s: RequestState, d: seq<int>)
    ensures PushedAll(s, d) == s.(totalLatency := s.totalLatency + Sum(d),
                                  actualStart := s.actualStart + Sum(d),
                                  pushDelays := s.pushDelays + d)
    decreases |d|
  {
    if d == [] {
      assert s.pushDelays + d == s.pushDelays;
    } else {
      PushedAllAccumulates(Pushed(s, d[0]), d[1..]);
      SumCons(d[0], d[1..]);
      assert d == [d[0]] + d[1..];
      assert s.pushDelays + d == (s.pushDelays + [d[0]]) + d[1..];
    }
  }

  /** The state after `execute(node, nodeType, latency)`. */
  function Executed(s: RequestState, node: string, nodeType: NodeType, latency: int): RequestState
  {
    s.(totalLatency := s.totalLatency + latency,
       executionNode := node,
       executionNodeType := Some(nodeType),
       executionCompleted := true,
       execLatencies := s.execLatencies + [latency])
  }

  /** What the fields of a request mean: the start has moved by the sum of
      the uplink delays, the total latency is those delays plus every
      execution latency, and the execution fields are set exactly when the
      request has run. */
  ghost predicate Consistent(s: RequestState, plannedStart: int)
  {
    && s.actualStart == plannedStart + Sum(s.pushDelays)
    && s.totalLatency == Sum(s.pushDelays) + Sum(s.execLatencies)
    && s.executionCompleted == (s.execLatencies != [])
    && s.executionNodeType.Some? == s.executionCompleted
    && (!s.executionCompleted ==> s.executionNode == NotExecuted)
  }

  lemma InitialConsistent(plannedStart: int)
    ensures Consistent(Initial(plannedStart), plannedStart)
    ensures Initial(plannedStart).totalLatency == 0
    ensures Initial(plannedStart).actualStart == plannedStart
  {
  }

  lemma PushedConsistent(s: RequestState, plannedStart: int, latency: int)
    requires Consistent(s, plannedStart)
    ensures Consistent(Pushed(s, latency), plannedStart)
  {
  }

  lemma ExecutedConsistent(s: RequestState, plannedStart: int, node: string, nodeType: NodeType, latency: int)
    requires Consistent(s, plannedStart)
    ensures Consistent(Executed(s, node, nodeType, latency), plannedStart)
  {
    assert Sum(s.execLatencies + [latency]) == Sum(s.execLatencies) + latency;
  }

  /** While a request has not run, the start has been delayed by exactly its
      accumulated latency, which is the sum of its uplink delays. */
  lemma PendingDelay(s: RequestState, plannedStart: int)
    requires Consistent(s, plannedStart)
    requires !s.executionCompleted
    ensures s.actualStart - plannedStart == s.totalLatency == Sum(s.pushDelays)
  {
  }

  /** A request that ran once carries the uplink delays plus that one
      execution latency, and that total is non-negative when they all are. */
  lemma ExecutedLatency(s: RequestState, plannedStart: int)
    requires Consistent(s, plannedStart)
    requires |s.execLatencies| == 1
    ensures s.totalLatency == Sum(s.pushDelays) + s.execLatencies[0]
    ensures (forall i :: 0 <= i < |s.pushDelays| ==> s.pushDelays[i] >= 0) && s.execLatencies[0] >= 0 ==>
              s.totalLatency >= 0
  {
    assert s.execLatencies[..0] == [];
    assert Sum(s.execLatencies) == Sum(s.execLatencies[..0]) + s.execLatencies[0];
    if (forall i :: 0 <= i < |s.pushDelays| ==> s.pushDelays[i] >= 0) {
      SumNonNegative(s.pushDelays);
    }
  }

  /** One unit of demand for an executable, at a bid price and a planned
      start; it accumulates latency while it is pushed towards the cloud. */
  class ExecRequest {
    const executable: Executable
    const execPrice: real
    const plannedStart: int
    var totalLatency: int
    var executionNode: string
    var executionNodeType: Option<NodeType>
    var actualStart: int
    var executionCompleted: bool
    ghost var pushDelays: seq<int>
    ghost var execLatencies: seq<int>

    ghost function State(): RequestState
      reads this
    {
      RequestState(totalLatency, actualStart, executionNode, executionNodeType,
                   executionCompleted, pushDelays, execLatencies)
    }

    ghost predicate Valid()
      reads this
    {
      Consistent(State(), plannedStart)
    }

    constructor (executable: Executable, execPrice: real, plannedStart: int)
      ensures this.executable == executable && this.execPrice == execPrice
      ensures this.plannedStart == plannedStart
      ensures State() == Initial(plannedStart) && Valid()
    {
      this.executable := executable;
      this.execPrice := execPrice;
      this.plannedStart := plannedStart;
      totalLatency := 0;
      executionNode := NotExecuted;
      executionNodeType := None;
      actualStart := plannedStart;
      executionCompleted := false;
      pushDelays := [];
      execLatencies := [];
    }

    /** Records that `node` of type `nodeType` ran this request taking
        `latency`; the actual start is left as it is. */
    method Execute(node: string, nodeType: NodeType, latency: int)
      requires Valid()
      modifies this`totalLatency, this`executionNode, this`executionNodeType, this`executionCompleted, this`execLatencies
      ensures State() == Executed(old(State()), node, nodeType, latency)
      ensures Valid()
    {
      totalLatency := totalLatency + latency;
      executionNode := node;
      executionNodeType := Some(nodeType);
      executionCompleted := true;
      execLatencies := execLatencies + [latency];
      ExecutedConsistent(old(State()), plannedStart, node, nodeType, latency);
    }

    /** Charges the uplink delay `latency` of one hop towards the cloud to
        both the total latency and the actual start. */
    method PushTowardsCloud(latency: int)
      requires Valid()
      modifies this`totalLatency, this`actualStart, this`pushDelays
      ensures State() == Pushed(old(State()), latency)
      ensures Valid()
    {
      totalLatency := totalLatency + latency;
      actualStart := actualStart + latency;
      pushDelays := pushDelays + [latency];
    }
  }
}
