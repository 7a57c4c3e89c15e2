/** The node-local rules of ComputeNode.kt stated on values: which cached
    executables are evicted for a new one, whether a request may start, what
    processing does to the utilization counters, and where a request that is
    refused ends up as it is pushed along the chain of parents. The class
    `Nodes.ComputeNode` is proved to follow these functions. */
module Admission {
  import opened Types
  import opened Requests

  // ---------------------------------------------------------------------
  // Executable cache and eviction (ComputeNode.kt:30-43)
  // ---------------------------------------------------------------------

  /** The total storage footprint of a sequence of executables. */
  function TotalSize(s: seq<Executable>): real
  {
    if s == [] then 0.0 else s[0].size + TotalSize(s[1..])
  }

  lemma {:induction false} TotalSizeConcat(a: seq<Executable>, b: seq<Executable>)
    ensures TotalSize(a + b) == TotalSize(a) + TotalSize(b)
  {
    if a == [] {
      assert a + b == b;
    } else {
      assert (a + b)[1..] == a[1..] + b;
      TotalSizeConcat(a[1..], b);
    }
  }

  function RemoveAt(s: seq<Executable>, i: nat): (r: seq<Executable>)
    requires i < |s|
    ensures |r| == |s| - 1
  {
    s[..i] + s[i + 1..]
  }

  lemma TotalSizeSingleton(e: Executable)
    ensures TotalSize([e]) == e.size
  {
    assert [e][1..] == [];
  }

  lemma {:induction false} TotalSizeRemoveAt(s: seq<Executable>, i: nat)
    requires i < |s|
    ensures TotalSize(RemoveAt(s, i)) == TotalSize(s) - s[i].size
  {
    if i == 0 {
      assert RemoveAt(s, 0) == s[1..];
    } else {
      var r := RemoveAt(s, i);
      assert r[0] == s[0] && r[1..] == RemoveAt(s[1..], i - 1);
      TotalSizeRemoveAt(s[1..], i - 1);
    }
  }

  lemma RemoveAtMultiset(s: seq<Executable>, i: nat)
    requires i < |s|
    ensures multiset(RemoveAt(s, i)) + multiset{s[i]} == multiset(s)
  {
    assert s == s[..i] + [s[i]] + s[i + 1..];
  }

  /** The position `minByOrNull { it.storePrice }` selects in an insertion
      ordered set; CheapestIsFirstMinimum says which one that is. */
  function CheapestIndex(cache: seq<Executable>): (i: nat)
    requires cache != []
    ensures i < |cache|
  {
    if |cache| == 1 then 0
    else
      var k := CheapestIndex(cache[1..]);
      if cache[0].storePrice <= cache[1..][k].storePrice then 0 else k + 1
  }

  /** The selected executable has the minimal store price, and it is the
      first one with that price: ties go to the earliest cached. */
  lemma {:induction false} CheapestIsFirstMinimum(cache: seq<Executable>)
    requires cache != []
    ensures var i := CheapestIndex(cache);
      && (forall j :: 0 <= j < |cache| ==> cache[i].storePrice <= cache[j].storePrice)
      && (forall j :: 0 <= j < i ==> cache[j].storePrice > cache[i].storePrice)
  {
    if |cache| > 1 {
      CheapestIsFirstMinimum(cache[1..]);
      var k := CheapestIndex(cache[1..]);
      var i := CheapestIndex(cache);
      forall j | 0 <= j < |cache| ensures cache[i].storePrice <= cache[j].storePrice {
        if j > 0 {
          assert cache[j] == cache[1..][j - 1];
        }
      }
      forall j | 0 <= j < i ensures cache[j].storePrice > cache[i].storePrice {
        if j > 0 {
          assert cache[j] == cache[1..][j - 1];
        }
      }
    }
  }

  /** No evicted executable has a higher store price than a kept one. */
  ghost predicate CheaperThanKept(evicted: seq<Executable>, kept: seq<Executable>)
  {
    forall a, b :: 0 <= a < |evicted| && 0 <= b < |kept| ==> evicted[a].storePrice <= kept[b].storePrice
  }

  /** Dropping the cheapest cached executable keeps every evicted one at or
      below what is still cached. */
  lemma CheaperAfterRemoval(cache: seq<Executable>, evicted: seq<Executable>, i: nat)
    requires cache != [] && i == CheapestIndex(cache)
    requires CheaperThanKept(evicted, cache)
    ensures CheaperThanKept(evicted + [cache[i]], RemoveAt(cache, i))
  {
    CheapestIsFirstMinimum(cache);
    var rest := RemoveAt(cache, i);
    forall a, b | 0 <= a < |evicted| + 1 && 0 <= b < |rest|
      ensures (evicted + [cache[i]])[a].storePrice <= rest[b].storePrice
    {
      var j := if b < i then b else b + 1;
      assert rest[b] == cache[j];
    }
  }

  /** The outcome of the eviction loop: what stays cached, the used-storage
      counter afterwards, what was evicted (in eviction order), and whether
      the loop ended because the new executable fits (`false`: the cache ran
      empty first, and the source throws). */
  datatype Eviction = Eviction(kept: seq<Executable>, used: real, evicted: seq<Executable>, fits: bool)

  /** The loop of ComputeNode.kt:33-39 from a state in which `evicted` has
      already been dropped: while `used + size` exceeds the capacity, drop
      the cheapest cached executable and uncharge its size. */
  function EvictFrom(cache: seq<Executable>, used: real, size: real, capacity: int, evicted: seq<Executable>): (r: Eviction)
    ensures r.fits ==> r.used + size <= capacity as real
    ensures !r.fits ==> r.kept == [] && r.used + size > capacity as real
    ensures |r.kept| + |r.evicted| == |cache| + |evicted|
    decreases |cache|
  {
    if used + size <= capacity as real then Eviction(cache, used, evicted, true)
    else if cache == [] then Eviction([], used, evicted, false)
    else
      var i := CheapestIndex(cache);
      EvictFrom(RemoveAt(cache, i), used - cache[i].size, size, capacity, evicted + [cache[i]])
  }

  /** The whole eviction loop, from an untouched cache. */
  function Evict(cache: seq<Executable>, used: real, size: real, capacity: int): Eviction
  {
    EvictFrom(cache, used, size, capacity, [])
  }

  /** Moving one element `x` from the cache side to the evicted side keeps
      the total. */
  lemma Regroup(total: multiset<Executable>, rest: multiset<Executable>, gone: multiset<Executable>,
                cache: multiset<Executable>, evicted: multiset<Executable>, x: multiset<Executable>)
    requires total == rest + gone && rest + x == cache && gone == evicted + x
    ensures total == cache + evicted
  {
  }

  /** Eviction only moves executables out of the cache: what is kept and
      what is evicted together are what was cached. */
  lemma {:induction false} EvictPermutation(cache: seq<Executable>, used: real, size: real, capacity: int, evicted: seq<Executable>)
    ensures var r := EvictFrom(cache, used, size, capacity, evicted);
      multiset(r.kept) + multiset(r.evicted) == multiset(cache) + multiset(evicted)
    decreases |cache|
  {
    if used + size > capacity as real && cache != [] {
      var i := CheapestIndex(cache);
      var rest, left, gone := RemoveAt(cache, i), used - cache[i].size, evicted + [cache[i]];
      var r := EvictFrom(rest, left, size, capacity, gone);
      assert EvictFrom(cache, used, size, capacity, evicted) == r;
      EvictPermutation(rest, left, size, capacity, gone);
      RemoveAtMultiset(cache, i);
      Regroup(multiset(r.kept) + multiset(r.evicted), multiset(rest), multiset(gone),
              multiset(cache), multiset(evicted), multiset{cache[i]});
    } else {
      var r := EvictFrom(cache, used, size, capacity, evicted);
      assert r.kept == cache && r.evicted == evicted;
    }
  }

  /** Every evicted executable was the cheapest one cached at that moment, so
      none is dearer than any executable that stays. */
  lemma {:induction false} EvictCheapestFirst(cache: seq<Executable>, used: real, size: real, capacity: int, evicted: seq<Executable>)
    requires CheaperThanKept(evicted, cache)
    ensures var r := EvictFrom(cache, used, size, capacity, evicted); CheaperThanKept(r.evicted, r.kept)
    decreases |cache|
  {
    if used + size > capacity as real && cache != [] {
      var i := CheapestIndex(cache);
      CheaperAfterRemoval(cache, evicted, i);
      EvictCheapestFirst(RemoveAt(cache, i), used - cache[i].size, size, capacity, evicted + [cache[i]]);
    }
  }

  /** Eviction keeps the counter in step with the cache: whatever leaves the
      cache leaves the counter. */
  lemma {:induction false} EvictAccounting(cache: seq<Executable>, used: real, size: real, capacity: int, evicted: seq<Executable>)
    ensures var r := EvictFrom(cache, used, size, capacity, evicted);
      used - TotalSize(cache) == r.used - TotalSize(r.kept)
    decreases |cache|
  {
    if used + size > capacity as real && cache != [] {
      var i := CheapestIndex(cache);
      TotalSizeRemoveAt(cache, i);
      EvictAccounting(RemoveAt(cache, i), used - cache[i].size, size, capacity, evicted + [cache[i]]);
    }
  }

  /** The loop stops as soon as the new executable fits: it evicts nothing
      when it fits already, and it did not fit before the last eviction. */
  lemma {:induction false} EvictMinimal(cache: seq<Executable>, used: real, size: real, capacity: int, evicted: seq<Executable>)
    ensures var r := EvictFrom(cache, used, size, capacity, evicted);
      && |r.evicted| >= |evicted| && r.evicted[..|evicted|] == evicted
      && (|r.evicted| == |evicted| ==> r.used == used && r.kept == cache)
      && (|r.evicted| > |evicted| ==> r.used + r.evicted[|r.evicted| - 1].size + size > capacity as real)
    decreases |cache|
  {
    if used + size > capacity as real && cache != [] {
      var i := CheapestIndex(cache);
      var rest, left, gone := RemoveAt(cache, i), used - cache[i].size, evicted + [cache[i]];
      var r := EvictFrom(rest, left, size, capacity, gone);
      assert EvictFrom(cache, used, size, capacity, evicted) == r;
      EvictMinimal(rest, left, size, capacity, gone);
      assert r.evicted[..|evicted|] == r.evicted[..|gone|][..|evicted|];
      if |r.evicted| == |gone| {
        assert r.evicted[|r.evicted| - 1] == gone[|gone| - 1];
      }
    }
  }

  /** Three cached executables of one size unit each, paying 5, 10 and 20,
      with the storage full: offering one more unit evicts exactly the
      price-5 one. */
  lemma EvictCheapestOnly()
    ensures var a, b, c := Executable(1.0, "a", 5.0, 1), Executable(1.0, "b", 10.0, 1), Executable(1.0, "c", 20.0, 1);
      Evict([a, b, c], 3.0, 1.0, 3) == Eviction([b, c], 2.0, [a], true)
  {
    var a, b, c := Executable(1.0, "a", 5.0, 1), Executable(1.0, "b", 10.0, 1), Executable(1.0, "c", 20.0, 1);
    assert CheapestIndex([b, c]) == 0 by {
      assert [b, c][1..] == [c];
    }
    assert CheapestIndex([a, b, c]) == 0 by {
      assert [a, b, c][1..] == [b, c];
    }
    assert RemoveAt([a, b, c], 0) == [b, c];
    assert EvictFrom([a, b, c], 3.0, 1.0, 3, []) == EvictFrom([b, c], 2.0, 1.0, 3, [a]);
  }

  /** The storage fees the cached executables pay (`getEarningStats`). */
  function StorePrices(s: seq<Executable>): real
  {
    if s == [] then 0.0 else s[0].storePrice + StorePrices(s[1..])
  }

  lemma {:induction false} StorePricesRemoveAt(s: seq<Executable>, i: nat)
    requires i < |s|
    ensures StorePrices(RemoveAt(s, i)) == StorePrices(s) - s[i].storePrice
  {
    if i == 0 {
      assert RemoveAt(s, 0) == s[1..];
    } else {
      var r := RemoveAt(s, i);
      assert r[0] == s[0] && r[1..] == RemoveAt(s[1..], i - 1);
      StorePricesRemoveAt(s[1..], i - 1);
    }
  }

  lemma {:induction false} StorePricesConcat(a: seq<Executable>, b: seq<Executable>)
    ensures StorePrices(a + b) == StorePrices(a) + StorePrices(b)
  {
    if a == [] {
      assert a + b == b;
    } else {
      assert (a + b)[1..] == a[1..] + b;
      StorePricesConcat(a[1..], b);
    }
  }

  /** Eviction moves store fees from the cache to the evicted executables:
      none is lost or gained. */
  lemma {:induction false} EvictStorePrices(cache: seq<Executable>, used: real, size: real, capacity: int, evicted: seq<Executable>)
    ensures var r := EvictFrom(cache, used, size, capacity, evicted);
      StorePrices(r.kept) + StorePrices(r.evicted) == StorePrices(cache) + StorePrices(evicted)
    decreases |cache|
  {
    if used + size > capacity as real && cache != [] {
      var i := CheapestIndex(cache);
      var rest, left, gone := RemoveAt(cache, i), used - cache[i].size, evicted + [cache[i]];
      assert EvictFrom(cache, used, size, capacity, evicted) == EvictFrom(rest, left, size, capacity, gone);
      EvictStorePrices(rest, left, size, capacity, gone);
      StorePricesRemoveAt(cache, i);
      StorePricesConcat(evicted, [cache[i]]);
      assert StorePrices([cache[i]]) == cache[i].storePrice by {
        assert [cache[i]][1..] == [];
      }
    } else {
      var r := EvictFrom(cache, used, size, capacity, evicted);
      assert r.kept == cache && r.evicted == evicted;
    }
  }

  /** Adds to an insertion-ordered set: a no-op if already present. */
  function AddToCache(cache: seq<Executable>, e: Executable): seq<Executable>
  {
    if e in cache then cache else cache + [e]
  }

  /** The cache after `offerExecutable(e)`: evict, then add `e` and charge its
      size. `stored == false` is the source's RuntimeException; the cache
      has been emptied by then. */
  datatype Placement = Placement(executables: seq<Executable>, used: real, evicted: seq<Executable>, stored: bool)

  function Place(cache: seq<Executable>, used: real, e: Executable, capacity: int): Placement
  {
    var ev := Evict(cache, used, e.size, capacity);
    if ev.fits then Placement(AddToCache(ev.kept, e), ev.used + e.size, ev.evicted, true)
    else Placement(ev.kept, ev.used, ev.evicted, false)
  }

  ghost predicate NonNegativeSizes(cache: seq<Executable>)
  {
    forall x :: x in cache ==> x.size >= 0.0
  }

  lemma {:induction false} TotalSizeNonNegative(cache: seq<Executable>)
    requires NonNegativeSizes(cache)
    ensures TotalSize(cache) >= 0.0
  {
    if cache != [] {
      TotalSizeNonNegative(cache[1..]);
    }
  }

  /** The used-storage counter agrees with what is cached. */
  ghost predicate StorageAccounted(cache: seq<Executable>, used: real)
  {
    used == TotalSize(cache)
  }

  /** When `e` already fits, nothing is evicted. */
  lemma PlaceWithoutEviction(cache: seq<Executable>, used: real, e: Executable, capacity: int)
    requires used + e.size <= capacity as real
    ensures Place(cache, used, e, capacity) == Placement(AddToCache(cache, e), used + e.size, [], true)
  {
  }

  /** With an accounted cache, `e` is stored exactly when it is no larger
      than the whole capacity; then it is cached, the counter stays within
      the capacity and, if `e` was not cached before, still accounts for
      the cache. */
  lemma PlaceStores(cache: seq<Executable>, used: real, e: Executable, capacity: int)
    requires StorageAccounted(cache, used) && NonNegativeSizes(cache)
    ensures var p := Place(cache, used, e, capacity);
      && (p.stored <==> e.size <= capacity as real)
      && (p.stored ==> e in p.executables && p.used <= capacity as real)
      && (p.stored && e !in cache ==> StorageAccounted(p.executables, p.used))
  {
    var ev := Evict(cache, used, e.size, capacity);
    EvictAccounting(cache, used, e.size, capacity, []);
    EvictPermutation(cache, used, e.size, capacity, []);
    assert multiset(ev.kept) + multiset(ev.evicted) == multiset(cache);
    if ev.fits {
      assert multiset(ev.kept) <= multiset(cache);
      forall x | x in ev.kept ensures x.size >= 0.0 {
        assert x in multiset(cache);
      }
      TotalSizeNonNegative(ev.kept);
      if e !in cache {
        assert e !in multiset(ev.kept);
        TotalSizeConcat(ev.kept, [e]);
        TotalSizeSingleton(e);
      }
    }
  }

  /** An executable larger than the capacity empties the cache and is then
      refused (the source throws). */
  lemma PlaceOversized(cache: seq<Executable>, used: real, e: Executable, capacity: int)
    requires StorageAccounted(cache, used) && NonNegativeSizes(cache)
    requires e.size > capacity as real
    ensures var p := Place(cache, used, e, capacity);
      !p.stored && p.executables == [] && multiset(p.evicted) == multiset(cache)
  {
    PlaceStores(cache, used, e, capacity);
    EvictPermutation(cache, used, e.size, capacity, []);
    var ev := Evict(cache, used, e.size, capacity);
    assert multiset(ev.kept) + multiset(ev.evicted) == multiset(cache);
  }

  /** Re-offering a cached executable that fits adds nothing to the set yet
      charges its size again: the counter then exceeds what is cached. */
  lemma PlaceCachedOvercounts(cache: seq<Executable>, used: real, e: Executable, capacity: int)
    requires StorageAccounted(cache, used)
    requires e in cache && used + e.size <= capacity as real
    ensures var p := Place(cache, used, e, capacity);
      p.executables == cache && p.used == TotalSize(cache) + e.size
  {
  }

  /** Storing a new executable moves the fees of the evicted ones out of the
      cache and adds the newcomer's. */
  lemma PlaceStorePrices(cache: seq<Executable>, used: real, e: Executable, capacity: int)
    requires e !in cache
    ensures var p := Place(cache, used, e, capacity);
      p.stored ==> StorePrices(p.executables) == StorePrices(cache) - StorePrices(p.evicted) + e.storePrice
  {
    var ev := Evict(cache, used, e.size, capacity);
    EvictStorePrices(cache, used, e.size, capacity, []);
    if ev.fits {
      EvictPermutation(cache, used, e.size, capacity, []);
      assert multiset(ev.kept) + multiset(ev.evicted) == multiset(cache);
      assert multiset(ev.kept) <= multiset(cache) && e !in multiset(cache);
      assert e !in ev.kept;
      StorePricesConcat(ev.kept, [e]);
      assert [e][1..] == [];
    }
  }

  // ---------------------------------------------------------------------
  // Request admission (ComputeNode.kt:55-93)
  // ---------------------------------------------------------------------

  /** `checkUtilization`: a run of `duration` from `timestamp` must end
      before the horizon, and the start slot must be below capacity. */
  predicate HasCapacity(utilization: seq<int>, capacity: int, horizon: int, timestamp: nat, duration: int)
  {
    if timestamp + duration >= horizon then false
    else timestamp < |utilization| && utilization[timestamp] < capacity
  }

  /** The per-node state that request admission reads and writes. */
  datatype NodeView = NodeView(
    nodeType: NodeType,
    name: string,
    capacity: int,
    horizon: int,
    executables: seq<Executable>,
    utilization: seq<int>,
    earnings: real,
    processed: int,
    pushedUp: int)

  ghost predicate WellFormed(v: NodeView)
  {
    |v.utilization| == v.horizon
  }

  /** Two views of the same node: only counters, earnings and utilization
      values may differ. */
  ghost predicate SameNode(a: NodeView, b: NodeView)
  {
    && a.nodeType == b.nodeType && a.name == b.name && a.capacity == b.capacity
    && a.horizon == b.horizon && a.executables == b.executables
    && |a.utilization| == |b.utilization|
  }

  /** ComputeNode.kt:56-63: a CLOUD node always processes; any other node
      processes when it caches the executable and the start slot has room. */
  predicate Admits(v: NodeView, timestamp: nat, exe: Executable)
  {
    v.nodeType == Cloud
    || (exe in v.executables && HasCapacity(v.utilization, v.capacity, v.horizon, timestamp, exe.execLatency))
  }

  /** One more concurrent run in every slot of `[from, to)`. */
  function Occupy(u: seq<int>, from: int, to: int): (r: seq<int>)
    ensures |r| == |u|
  {
    seq(|u|, i requires 0 <= i < |u| => if from <= i < to then u[i] + 1 else u[i])
  }

  /** Processing adds one run to each slot it covers, so the utilization
      total grows by the number of covered slots. */
  lemma {:induction false} OccupyTotal(u: seq<int>, from: int, to: int)
    requires 0 <= from <= to <= |u|
    ensures Sum(Occupy(u, from, to)) == Sum(u) + (to - from)
    decreases |u|
  {
    if from == |u| {
      assert Occupy(u, from, to) == u;
    } else {
      var n := |u|;
      var to' := Min(to, n - 1);
      assert Occupy(u, from, to)[..n - 1] == Occupy(u[..n - 1], from, to');
      OccupyTotal(u[..n - 1], from, to');
    }
  }

  /** The view after `processRequest` with the drawn execution latency. */
  function Process(v: NodeView, timestamp: int, price: real, latency: nat): (r: NodeView)
  {
    v.(utilization := Occupy(v.utilization, timestamp, Min(timestamp + latency, v.horizon)),
       earnings := v.earnings + price,
       processed := v.processed + 1)
  }

  /** What admission guarantees at a node other than the cloud: the
      executable is cached, its nominal run ends before the horizon, and once
      it is processed the start slot is still within the parallel capacity. */
  lemma AdmitsWithinCapacity(v: NodeView, timestamp: nat, exe: Executable, price: real, latency: nat)
    requires WellFormed(v) && v.nodeType != Cloud && Admits(v, timestamp, exe)
    ensures exe in v.executables && timestamp + exe.execLatency < v.horizon && timestamp < v.horizon
    ensures Process(v, timestamp, price, latency).utilization[timestamp] <= v.capacity
  {
  }

  /** Only the start slot is compared with the capacity: a node with one
      parallel slot admits a run whose drawn latency carries it into a slot
      that is already busy, which then holds two runs. */
  lemma LaterSlotMayOverflow()
    ensures var exe := Executable(1.0, "f", 1.0, 1);
      var v := NodeView(Edge, "edge", 1, 3, [exe], [0, 1, 0], 0.0, 0, 0);
      && WellFormed(v) && Admits(v, 0, exe)
      && Process(v, 0, 1.0, 2).utilization[1] == 2 > v.capacity
  {
  }

  /** The view of a node that pushes a request up. */
  function Push(v: NodeView): NodeView
  {
    v.(pushedUp := v.pushedUp + 1)
  }

  /** Preconditions shared by the routing functions: one drawn value per node
      that the request may visit. */
  predicate Routable(chain: seq<NodeView>, hops: seq<nat>)
  {
    |hops| >= |chain|
  }

  /** `offerRequest` along a chain of nodes (the node first, then its parent,
      and so on): `hops[i]` is the value drawn at the i-th node, the uplink
      delay when it pushes, the execution latency when it processes. */
  ghost function Route(chain: seq<NodeView>, timestamp: nat, exe: Executable, price: real, hops: seq<nat>): (r: seq<NodeView>)
    requires Routable(chain, hops)
    ensures |r| == |chain|
    decreases |chain|
  {
    if chain == [] then []
    else if Admits(chain[0], timestamp, exe) then [Process(chain[0], timestamp, price, hops[0])] + chain[1..]
    else [Push(chain[0])] + Route(chain[1..], timestamp + hops[0], exe, price, hops[1..])
  }

  /** How many nodes push the request up before one processes it; equal to
      the chain length when none does and the request is dropped. */
  ghost function Hops(chain: seq<NodeView>, timestamp: nat, exe: Executable, hops: seq<nat>): (k: nat)
    requires Routable(chain, hops)
    ensures k <= |chain|
    decreases |chain|
  {
    if chain == [] then 0
    else if Admits(chain[0], timestamp, exe) then 0
    else 1 + Hops(chain[1..], timestamp + hops[0], exe, hops[1..])
  }

  /** The request's state after `offerRequest` along the chain. */
  ghost function RouteRequest(chain: seq<NodeView>, timestamp: nat, exe: Executable, req: RequestState, hops: seq<nat>): RequestState
    requires Routable(chain, hops)
    decreases |chain|
  {
    if chain == [] then req
    else if Admits(chain[0], timestamp, exe) then Executed(req, chain[0].name, chain[0].nodeType, hops[0])
    else RouteRequest(chain[1..], timestamp + hops[0], exe, Pushed(req, hops[0]), hops[1..])
  }

  /** One step of routing at a node `here` that admits the request; `rest`
      are its ancestors. */
  lemma RouteProcesses(chain: seq<NodeView>, here: NodeView, rest: seq<NodeView>, timestamp: nat, exe: Executable, price: real, req: RequestState, hops: seq<nat>)
    requires chain == [here] + rest && Routable(chain, hops) && Admits(here, timestamp, exe)
    ensures Route(chain, timestamp, exe, price, hops) == [Process(here, timestamp, price, hops[0])] + rest
    ensures RouteRequest(chain, timestamp, exe, req, hops) == Executed(req, here.name, here.nodeType, hops[0])
  {
    assert chain[1..] == rest;
  }

  /** One step of routing at a node `here` that refuses the request. */
  lemma RoutePushes(chain: seq<NodeView>, here: NodeView, rest: seq<NodeView>, timestamp: nat, exe: Executable, price: real, req: RequestState, hops: seq<nat>)
    requires chain == [here] + rest && Routable(chain, hops) && !Admits(here, timestamp, exe)
    ensures Routable(rest, hops[1..])
    ensures Route(chain, timestamp, exe, price, hops)
         == [Push(here)] + Route(rest, timestamp + hops[0], exe, price, hops[1..])
    ensures RouteRequest(chain, timestamp, exe, req, hops)
         == RouteRequest(rest, timestamp + hops[0], exe, Pushed(req, hops[0]), hops[1..])
  {
    assert chain[1..] == rest;
  }

  lemma PrefixShift(hops: seq<nat>, k: nat)
    requires k < |hops|
    ensures Sum(hops[..k + 1]) == hops[0] + Sum(hops[1..][..k])
  {
    assert hops[..k + 1] == [hops[0]] + hops[1..][..k];
    SumCons(hops[0], hops[1..][..k]);
  }

  /** What routing does to each node of the chain: the k nodes before the
      processing one each count one pushed-up request, the k-th processes it
      at its arrival time (the start plus the first k delays), and the rest
      are untouched. */
  lemma {:induction false} RouteAt(chain: seq<NodeView>, timestamp: nat, exe: Executable, price: real, hops: seq<nat>, i: nat)
    requires Routable(chain, hops) && i < |chain|
    ensures var k := Hops(chain, timestamp, exe, hops);
      Route(chain, timestamp, exe, price, hops)[i] ==
        if i < k then Push(chain[i])
        else if i == k then Process(chain[i], timestamp + Sum(hops[..k]), price, hops[k])
        else chain[i]
    decreases |chain|
  {
    if !Admits(chain[0], timestamp, exe) && i > 0 {
      var k' := Hops(chain[1..], timestamp + hops[0], exe, hops[1..]);
      RouteAt(chain[1..], timestamp + hops[0], exe, price, hops[1..], i - 1);
      PrefixShift(hops, k');
    } else if Admits(chain[0], timestamp, exe) && i == 0 {
      assert hops[..0] == [];
    }
  }

  /** Each offer bumps exactly one counter of the receiving node: processed
      when it admits the request, pushed-up otherwise. */
  lemma OneCounterPerOffer(chain: seq<NodeView>, timestamp: nat, exe: Executable, price: real, hops: seq<nat>)
    requires Routable(chain, hops) && chain != []
    ensures var r := Route(chain, timestamp, exe, price, hops)[0];
      && r.processed + r.pushedUp == chain[0].processed + chain[0].pushedUp + 1
      && (r.processed == chain[0].processed + 1 <==> Admits(chain[0], timestamp, exe))
  {
  }

  /** A CLOUD node on the chain processes the request if nothing below it
      did: the request never travels past it and is not dropped. */
  lemma {:induction false} CloudStopsEscalation(chain: seq<NodeView>, timestamp: nat, exe: Executable, hops: seq<nat>, j: nat)
    requires Routable(chain, hops) && j < |chain| && chain[j].nodeType == Cloud
    ensures Hops(chain, timestamp, exe, hops) <= j
    decreases |chain|
  {
    if j > 0 && !Admits(chain[0], timestamp, exe) {
      CloudStopsEscalation(chain[1..], timestamp + hops[0], exe, hops[1..], j - 1);
    }
  }

  /** What routing does to the request: it is pushed with the first k
      drawn delays and, unless it was dropped, is then executed by the k-th
      node with the k-th drawn latency. */
  lemma {:induction false} RouteRequestOutcome(chain: seq<NodeView>, timestamp: nat, exe: Executable, req: RequestState, hops: seq<nat>)
    requires Routable(chain, hops)
    ensures var k := Hops(chain, timestamp, exe, hops);
      RouteRequest(chain, timestamp, exe, req, hops) ==
        if k < |chain| then Executed(PushedAll(req, hops[..k]), chain[k].name, chain[k].nodeType, hops[k])
        else PushedAll(req, hops[..k])
    decreases |chain|
  {
    if chain != [] && !Admits(chain[0], timestamp, exe) {
      var k' := Hops(chain[1..], timestamp + hops[0], exe, hops[1..]);
      var k := k' + 1;
      assert Hops(chain, timestamp, exe, hops) == k;
      RouteRequestOutcome(chain[1..], timestamp + hops[0], exe, Pushed(req, hops[0]), hops[1..]);
      var d := hops[..k];
      assert d[0] == hops[0] && d[1..] == hops[1..][..k'];
      assert PushedAll(req, d) == PushedAll(Pushed(req, hops[0]), hops[1..][..k']);
      if k < |chain| {
        assert chain[1..][k'] == chain[k] && hops[1..][k'] == hops[k];
      }
    } else {
      assert hops[..0] == [];
    }
  }

  /** A pending request that is routed is executed or dropped; either way
      its fields keep their meaning, and it has run exactly when some node
      on the chain admitted it. */
  lemma RouteConsistent(chain: seq<NodeView>, timestamp: nat, exe: Executable, req: RequestState, plannedStart: int, hops: seq<nat>)
    requires Routable(chain, hops)
    requires Consistent(req, plannedStart) && !req.executionCompleted
    ensures var r := RouteRequest(chain, timestamp, exe, req, hops);
      && Consistent(r, plannedStart)
      && r.pushDelays == req.pushDelays + hops[..Hops(chain, timestamp, exe, hops)]
      && (r.executionCompleted <==> Hops(chain, timestamp, exe, hops) < |chain|)
      && r.execLatencies == (if r.executionCompleted then [hops[Hops(chain, timestamp, exe, hops)]] else [])
  {
    var k := Hops(chain, timestamp, exe, hops);
    var d := hops[..k];
    RouteRequestOutcome(chain, timestamp, exe, req, hops);
    PushedAllAccumulates(req, d);
    SumConcat(req.pushDelays, d);
    var p := PushedAll(req, d);
    assert p.execLatencies == [] && !p.executionCompleted;
    assert Consistent(p, plannedStart);
    if k < |chain| {
      ExecutedConsistent(p, plannedStart, chain[k].name, chain[k].nodeType, hops[k]);
    }
  }

  /** After routing, the total latency of a request is the sum of its uplink
      delays plus, if it was executed, its one execution latency; it is never
      negative, and its start is still delayed by exactly its uplink delays. */
  lemma RouteLatency(chain: seq<NodeView>, timestamp: nat, exe: Executable, req: RequestState, plannedStart: int, hops: seq<nat>)
    requires Routable(chain, hops)
    requires Consistent(req, plannedStart) && !req.executionCompleted
    requires forall i :: 0 <= i < |req.pushDelays| ==> req.pushDelays[i] >= 0
    ensures var r := RouteRequest(chain, timestamp, exe, req, hops);
      && r.actualStart == plannedStart + Sum(r.pushDelays)
      && (!r.executionCompleted ==> r.totalLatency == Sum(r.pushDelays))
      && (r.executionCompleted ==>
            |r.execLatencies| == 1 && r.totalLatency == Sum(r.pushDelays) + r.execLatencies[0])
      && r.totalLatency >= 0
  {
    RouteConsistent(chain, timestamp, exe, req, plannedStart, hops);
    var r := RouteRequest(chain, timestamp, exe, req, hops);
    if r.executionCompleted {
      ExecutedLatency(r, plannedStart);
    }
    SumNonNegative(r.pushDelays);
  }

  /** The names and tiers of a chain of nodes: what a routed request can
      record as its executing node. */
  function StopsOf(chain: seq<NodeView>): (s: seq<(string, NodeType)>)
    ensures |s| == |chain|
  {
    seq(|chain|, j requires 0 <= j < |chain| => (chain[j].name, chain[j].nodeType))
  }

  /** `after` is `before` routed along a chain with the stops `stops`: the
      first k stops, none of them a CLOUD node, pushed it on with the first k
      drawn delays, and the k-th executed it with the k-th drawn latency, or,
      when k is the chain length, it was dropped at the top. */
  ghost predicate Routed(before: RequestState, after: RequestState, stops: seq<(string, NodeType)>, hops: seq<nat>)
  {
    var k := |after.pushDelays| - |before.pushDelays|;
    && |hops| >= |stops| && 0 <= k <= |stops|
    && (forall j :: 0 <= j < k ==> stops[j].1 != Cloud)
    && after == if k < |stops| then Executed(PushedAll(before, hops[..k]), stops[k].0, stops[k].1, hops[k])
                else PushedAll(before, hops[..k])
  }

  /** A routed request is never carried past a CLOUD stop: if the chain has
      one, the request was executed by it or by a node below it. */
  lemma RoutedToCloud(before: RequestState, after: RequestState, stops: seq<(string, NodeType)>, hops: seq<nat>, j: nat)
    requires Routed(before, after, stops, hops) && j < |stops| && stops[j].1 == Cloud
    ensures after.executionCompleted && |after.pushDelays| - |before.pushDelays| <= j
  {
  }

  /** Routing along a chain routes the request in the sense of `Routed`. */
  lemma {:induction false} RouteRequestRouted(chain: seq<NodeView>, timestamp: nat, exe: Executable, req: RequestState, hops: seq<nat>)
    requires Routable(chain, hops)
    ensures Routed(req, RouteRequest(chain, timestamp, exe, req, hops), StopsOf(chain), hops)
    decreases |chain|
  {
    var after := RouteRequest(chain, timestamp, exe, req, hops);
    if chain == [] || Admits(chain[0], timestamp, exe) {
      assert hops[..0] == [];
    } else {
      var pushed := Pushed(req, hops[0]);
      RouteRequestRouted(chain[1..], timestamp + hops[0], exe, pushed, hops[1..]);
      var k' := |after.pushDelays| - |pushed.pushDelays|;
      var k := k' + 1;
      var d := hops[..k];
      assert d[0] == hops[0] && d[1..] == hops[1..][..k'];
      assert PushedAll(req, d) == PushedAll(pushed, hops[1..][..k']);
      var stops, rest := StopsOf(chain), StopsOf(chain[1..]);
      assert stops[0].1 != Cloud;
      assert forall j :: 0 <= j < |rest| ==> rest[j] == stops[j + 1];
      assert forall j :: 0 <= j < k ==> stops[j].1 != Cloud by {
        forall j | 0 < j < k ensures stops[j].1 != Cloud {
          assert stops[j] == rest[j - 1];
        }
      }
    }
  }

  /** The processing earnings of a chain of nodes. */
  function TotalEarnings(chain: seq<NodeView>): real
  {
    if chain == [] then 0.0 else chain[0].earnings + TotalEarnings(chain[1..])
  }

  /** The bid of a routed request is earned exactly once, by the node that
      processes it, and not at all when it is dropped. */
  lemma {:induction false} RouteEarnings(chain: seq<NodeView>, timestamp: nat, exe: Executable, price: real, hops: seq<nat>)
    requires Routable(chain, hops)
    ensures TotalEarnings(Route(chain, timestamp, exe, price, hops))
         == TotalEarnings(chain) + (if Hops(chain, timestamp, exe, hops) < |chain| then price else 0.0)
    decreases |chain|
  {
    if chain != [] {
      var r := Route(chain, timestamp, exe, price, hops);
      if Admits(chain[0], timestamp, exe) {
        assert r[1..] == chain[1..];
      } else {
        assert r[1..] == Route(chain[1..], timestamp + hops[0], exe, price, hops[1..]);
        RouteEarnings(chain[1..], timestamp + hops[0], exe, price, hops[1..]);
      }
    }
  }

  /** A drawn value and an offer of one request to a node (one element of the
      price-ordered batch). */
  datatype Demand = Demand(executable: Executable, price: real, hops: seq<nat>)

  ghost predicate BatchRoutable(chain: seq<NodeView>, batch: seq<Demand>)
  {
    forall j :: 0 <= j < |batch| ==> Routable(chain, batch[j].hops)
  }

  /** `offerRequest` for each demand of the batch in turn, all at the same
      timestamp, each seeing what the earlier ones left. */
  ghost function RouteAll(chain: seq<NodeView>, timestamp: nat, batch: seq<Demand>): (r: seq<NodeView>)
    requires BatchRoutable(chain, batch)
    ensures |r| == |chain|
    decreases |batch|
  {
    if batch == [] then chain
    else
      var before := RouteAll(chain, timestamp, batch[..|batch| - 1]);
      var d := batch[|batch| - 1];
      assert Routable(before, d.hops);
      Route(before, timestamp, d.executable, d.price, d.hops)
  }

  /** One more demand of the batch: route it on what the earlier ones left. */
  lemma RouteAllStep(chain: seq<NodeView>, timestamp: nat, batch: seq<Demand>, i: nat)
    requires BatchRoutable(chain, batch) && i < |batch|
    ensures BatchRoutable(chain, batch[..i]) && BatchRoutable(chain, batch[..i + 1])
    ensures Routable(RouteAll(chain, timestamp, batch[..i]), batch[i].hops)
    ensures RouteAll(chain, timestamp, batch[..i + 1])
         == Route(RouteAll(chain, timestamp, batch[..i]), timestamp, batch[i].executable, batch[i].price, batch[i].hops)
  {
    assert batch[..i + 1][..i] == batch[..i];
  }

  /** The i-th request of a batch ends as routing it on what the earlier
      ones left prescribes. */
  ghost predicate RoutedInTurn(chain: seq<NodeView>, timestamp: nat, batch: seq<Demand>, i: nat,
                               before: RequestState, after: RequestState)
    requires BatchRoutable(chain, batch) && i < |batch|
  {
    assert BatchRoutable(chain, batch[..i]) by {
      assert forall j :: 0 <= j < i ==> batch[..i][j] == batch[j];
    }
    after == RouteRequest(RouteAll(chain, timestamp, batch[..i]), timestamp, batch[i].executable, before, batch[i].hops)
  }

  /** The state each request of the batch ends in, given the states `pre`
      it starts from. */
  ghost function Turns(chain: seq<NodeView>, timestamp: nat, batch: seq<Demand>, pre: seq<RequestState>): (r: seq<RequestState>)
    requires BatchRoutable(chain, batch) && |pre| == |batch|
    ensures |r| == |batch|
    decreases |batch|
  {
    if batch == [] then []
    else
      var n := |batch| - 1;
      RouteAllStep(chain, timestamp, batch, n);
      Turns(chain, timestamp, batch[..n], pre[..n])
        + [RouteRequest(RouteAll(chain, timestamp, batch[..n]), timestamp, batch[n].executable, pre[n], batch[n].hops)]
  }

  /** The i-th entry of `Turns` is the state the i-th request ends in. */
  lemma {:induction false} TurnsAt(chain: seq<NodeView>, timestamp: nat, batch: seq<Demand>, pre: seq<RequestState>, i: nat)
    requires BatchRoutable(chain, batch) && |pre| == |batch| && i < |batch|
    ensures RoutedInTurn(chain, timestamp, batch, i, pre[i], Turns(chain, timestamp, batch, pre)[i])
    decreases |batch|
  {
    var n := |batch| - 1;
    RouteAllStep(chain, timestamp, batch, n);
    if i < n {
      TurnsAt(chain, timestamp, batch[..n], pre[..n], i);
      assert batch[..n][..i] == batch[..i];
    }
  }

  /** Every request of the batch is routed along the chain from its state
      in `pre` to its entry in `Turns`. */
  lemma BatchRouted(chain: seq<NodeView>, timestamp: nat, batch: seq<Demand>, pre: seq<RequestState>)
    requires BatchRoutable(chain, batch) && |pre| == |batch|
    ensures forall j :: 0 <= j < |batch| ==> Routed(pre[j], Turns(chain, timestamp, batch, pre)[j], StopsOf(chain), batch[j].hops)
  {
    forall j | 0 <= j < |batch|
      ensures Routed(pre[j], Turns(chain, timestamp, batch, pre)[j], StopsOf(chain), batch[j].hops)
    {
      TurnsAt(chain, timestamp, batch, pre, j);
      TurnRouted(chain, timestamp, batch, j, pre[j], Turns(chain, timestamp, batch, pre)[j]);
    }
  }

  /** Routing keeps every node's name and tier. */
  lemma {:induction false} RouteStops(chain: seq<NodeView>, timestamp: nat, exe: Executable, price: real, hops: seq<nat>)
    requires Routable(chain, hops)
    ensures StopsOf(Route(chain, timestamp, exe, price, hops)) == StopsOf(chain)
    decreases |chain|
  {
    if chain != [] && !Admits(chain[0], timestamp, exe) {
      RouteStops(chain[1..], timestamp + hops[0], exe, price, hops[1..]);
      var r := Route(chain, timestamp, exe, price, hops);
      var tail := Route(chain[1..], timestamp + hops[0], exe, price, hops[1..]);
      assert r == [Push(chain[0])] + tail;
      forall j | 0 <= j < |r| ensures StopsOf(r)[j] == StopsOf(chain)[j] {
        if j > 0 {
          assert r[j] == tail[j - 1] && chain[j] == chain[1..][j - 1];
          assert StopsOf(tail)[j - 1] == StopsOf(chain[1..])[j - 1];
        }
      }
    }
  }

  lemma {:induction false} RouteAllStops(chain: seq<NodeView>, timestamp: nat, batch: seq<Demand>)
    requires BatchRoutable(chain, batch)
    ensures StopsOf(RouteAll(chain, timestamp, batch)) == StopsOf(chain)
    decreases |batch|
  {
    if batch != [] {
      var prefix := batch[..|batch| - 1];
      assert BatchRoutable(chain, prefix);
      RouteAllStops(chain, timestamp, prefix);
      var before := RouteAll(chain, timestamp, prefix);
      var d := batch[|batch| - 1];
      RouteStops(before, timestamp, d.executable, d.price, d.hops);
    }
  }

  /** Whatever the earlier requests of a batch did to the chain, each request
      is routed along the same stops. */
  lemma TurnRouted(chain: seq<NodeView>, timestamp: nat, batch: seq<Demand>, i: nat, before: RequestState, after: RequestState)
    requires BatchRoutable(chain, batch) && i < |batch|
    requires RoutedInTurn(chain, timestamp, batch, i, before, after)
    ensures Routed(before, after, StopsOf(chain), batch[i].hops)
  {
    RouteAllStep(chain, timestamp, batch, i);
    var seen := RouteAll(chain, timestamp, batch[..i]);
    RouteRequestRouted(seen, timestamp, batch[i].executable, before, batch[i].hops);
    RouteAllStops(chain, timestamp, batch[..i]);
  }

  /** A batch of n requests bumps the receiving node's two counters by n in
      all. */
  lemma {:induction false} RouteAllCounts(chain: seq<NodeView>, timestamp: nat, batch: seq<Demand>)
    requires BatchRoutable(chain, batch) && chain != []
    ensures var r := RouteAll(chain, timestamp, batch)[0];
      r.processed + r.pushedUp == chain[0].processed + chain[0].pushedUp + |batch|
    decreases |batch|
  {
    if batch != [] {
      var prefix := batch[..|batch| - 1];
      assert BatchRoutable(chain, prefix);
      RouteAllCounts(chain, timestamp, prefix);
      var before := RouteAll(chain, timestamp, prefix);
      var d := batch[|batch| - 1];
      OneCounterPerOffer(before, timestamp, d.executable, d.price, d.hops);
    }
  }
}
