/** The webhook's check of the annotation against the pool resources, and what it means
    for the process starter. */
module AnnotationCheck {
  import opened Wrappers
  import opened Annotation
  import opened CpuSets
  import opened DeviceIds
  import opened DevicePlugin
  import opened GoText
  import opened PoolRequests
  import opened Pools
  import PS = ProcessStarter

  type PoolRequestMap = map<string, Requests>

  /** What the check asks of one pool that a container's annotation mentions. */
  predicate PoolAccepted(poolRequests: PoolRequestMap, name: string, processes: seq<Process>, pool: string) {
    && name in poolRequests
    && SumPrefixed(processes, |processes|, SHARED_POOL_ID) == poolRequests[name].shared
    && pool in poolRequests[name].pools
    && TotalOf(processes, |processes|, pool) <= 2 * poolRequests[name].pools[pool]
  }

  predicate ContainerAccepted(poolRequests: PoolRequestMap, name: string, processes: seq<Process>) {
    forall i | 0 <= i < |processes| :: PoolAccepted(poolRequests, name, processes, processes[i].poolName)
  }

  /** validateAnnotation: `names` stands for Containers(), in the map's order. */
  method ValidateAnnotation(poolRequests: PoolRequestMap, annotation: CPUAnnotation, names: seq<string>) returns (ok: bool)
    requires annotation.Valid() && IsOrder(names, annotation.containers.Keys)
    ensures ok <==> forall name | name in annotation.containers ::
                      ContainerAccepted(poolRequests, name, annotation.Processes(name))
  {
    for i := 0 to |names|
      invariant forall j | 0 <= j < i :: ContainerAccepted(poolRequests, names[j], annotation.Processes(names[j]))
    {
      assert names[i] in names;
      var accepted := ValidateContainer(poolRequests, annotation, names[i]);
      if !accepted {
        return false;
      }
    }
    return true;
  }

  /** The inner loop, over the distinct pools of one container. */
  method ValidateContainer(poolRequests: PoolRequestMap, annotation: CPUAnnotation, name: string) returns (ok: bool)
    requires annotation.Valid()
    ensures ok <==> ContainerAccepted(poolRequests, name, annotation.Processes(name))
  {
    var pools := annotation.ContainerPools(name);
    ghost var processes := annotation.Processes(name);
    for i := 0 to |pools|
      invariant forall j | 0 <= j < i :: PoolAccepted(poolRequests, name, processes, pools[j])
    {
      ghost var k := Mentioned(processes, pools, i);
      if name !in poolRequests {
        return false;
      }
      var sharedTime := annotation.ContainerSharedCPUTime(name);
      if sharedTime != poolRequests[name].shared {
        return false;
      }
      if pools[i] !in poolRequests[name].pools {
        return false;
      }
      var total := annotation.ContainerTotalCPURequest(pools[i], name);
      if total > 2 * poolRequests[name].pools[pools[i]] {
        return false;
      }
    }
    forall k | 0 <= k < |processes| ensures PoolAccepted(poolRequests, name, processes, processes[k].poolName) {
      assert processes[k].poolName in pools;
    }
    return true;
  }

  lemma Mentioned(processes: seq<Process>, pools: seq<string>, i: nat) returns (k: nat)
    requires pools == PoolsOf(processes, |processes|) && i < |pools|
    ensures k < |processes| && processes[k].poolName == pools[i]
  {
    assert pools[i] in pools;
    k :| 0 <= k < |processes| && processes[k].poolName == pools[i];
  }

  // ---- Exclusive CPUs ----

  /** The resource of a pool whose name says that it is exclusive. */
  lemma ExclusiveKey(requests: Requests, limits: map<string, int>, pool: string)
    requires Reads(requests, limits, limits.Keys) && pool in requests.pools && HasPrefix(pool, EXCLUSIVE_POOL_ID)
    ensures POOL_PREFIX + pool in limits && requests.pools[pool] == limits[POOL_PREFIX + pool]
    ensures HasPrefix(POOL_PREFIX + pool, EXCLUSIVE_PREFIX)
  {
    var k :| k in limits.Keys && Names(k, pool) && requests.pools[pool] == limits[k];
    assert pool[0] == 'e' && RESOURCE_BASE_NAME[0] == 'b';
    assert HasPrefix(k, POOL_PREFIX);
    assert k == POOL_PREFIX + pool;
    assert EXCLUSIVE_PREFIX == POOL_PREFIX + EXCLUSIVE_POOL_ID;
    assert pool == EXCLUSIVE_POOL_ID + pool[|EXCLUSIVE_POOL_ID|..];
    assert k == EXCLUSIVE_PREFIX + pool[|EXCLUSIVE_POOL_ID|..];
  }

  /** The resource of an exclusive pool with this amount. */
  ghost predicate IsExclusiveResource(limits: map<string, int>, pools: map<string, int>, pool: string) {
    && POOL_PREFIX + pool in limits && HasPrefix(POOL_PREFIX + pool, EXCLUSIVE_PREFIX)
    && pool in pools && pools[pool] == limits[POOL_PREFIX + pool]
  }

  lemma {:induction false} SumNonNegative(limits: map<string, int>, keys: set<string>)
    requires keys <= limits.Keys && forall k | k in keys :: limits[k] >= 0
    ensures SumOf(limits, keys) >= 0
  {
    if keys != {} {
      var k :| k in keys && SumOf(limits, keys) == limits[k] + SumOf(limits, keys - {k});
      SumNonNegative(limits, keys - {k});
    }
  }

  ghost predicate IsBounded(processes: seq<Process>, limits: map<string, int>, pools: map<string, int>, keys: set<string>, pool: string) {
    && IsExclusiveResource(limits, pools, pool) && POOL_PREFIX + pool in keys
    && TotalOf(processes, |processes|, pool) <= 2 * pools[pool]
  }

  /** Twice the amounts of distinct exclusive resources bound the totals of their pools. */
  lemma {:induction false} TotalsBounded(list: seq<string>, n: nat, processes: seq<Process>, limits: map<string, int>,
                                         pools: map<string, int>, keys: set<string>)
    requires n <= |list| && keys <= limits.Keys && forall k | k in keys :: limits[k] >= 0
    requires forall i, j | 0 <= i < j < |list| :: list[i] != list[j]
    requires forall i | 0 <= i < n && HasPrefix(list[i], EXCLUSIVE_POOL_ID) :: IsBounded(processes, limits, pools, keys, list[i])
    ensures SumOfTotals(list, n, processes, |processes|, EXCLUSIVE_POOL_ID) <= 2 * SumOf(limits, keys)
  {
    if n == 0 {
      SumNonNegative(limits, keys);
    } else if !HasPrefix(list[n - 1], EXCLUSIVE_POOL_ID) {
      TotalsBounded(list, n - 1, processes, limits, pools, keys);
    } else {
      var key := POOL_PREFIX + list[n - 1];
      assert IsBounded(processes, limits, pools, keys, list[n - 1]);
      forall i | 0 <= i < n - 1 ensures POOL_PREFIX + list[i] != key {
        assert (POOL_PREFIX + list[i])[|POOL_PREFIX|..] == list[i] && key[|POOL_PREFIX|..] == list[n - 1];
      }
      forall i | 0 <= i < n - 1 && HasPrefix(list[i], EXCLUSIVE_POOL_ID)
        ensures IsBounded(processes, limits, pools, keys - {key}, list[i])
      {
        assert IsBounded(processes, limits, pools, keys, list[i]);
      }
      SumWithout(limits, keys, key);
      TotalsBounded(list, n - 1, processes, limits, pools, keys - {key});
    }
  }

  /** An accepted annotation asks exactly for the shared CPU time of the resources. */
  lemma AcceptedShared(poolRequests: PoolRequestMap, name: string, processes: seq<Process>)
    requires processes != [] && ContainerAccepted(poolRequests, name, processes)
    ensures name in poolRequests
    ensures SumPrefixed(processes, |processes|, SHARED_POOL_ID) == poolRequests[name].shared
  {
    assert PoolAccepted(poolRequests, name, processes, processes[0].poolName);
  }

  /** And for at most twice the exclusive CPUs, provided that no limit is negative. */
  lemma AcceptedExclusive(poolRequests: PoolRequestMap, name: string, processes: seq<Process>, limits: map<string, int>)
    requires ContainerAccepted(poolRequests, name, processes)
    requires name in poolRequests && Reads(poolRequests[name], limits, limits.Keys)
    requires forall k | k in limits :: limits[k] >= 0
    ensures SumPrefixed(processes, |processes|, EXCLUSIVE_POOL_ID) <= 2 * poolRequests[name].exclusive
  {
    var pools, list := poolRequests[name].pools, PoolsOf(processes, |processes|);
    var keys := WithPrefix(limits.Keys, EXCLUSIVE_PREFIX);
    forall i | 0 <= i < |list| && HasPrefix(list[i], EXCLUSIVE_POOL_ID)
      ensures IsBounded(processes, limits, pools, keys, list[i])
    {
      AcceptedPool(poolRequests, name, processes, limits, list[i]);
    }
    TotalsBounded(list, |list|, processes, limits, pools, keys);
    TotalsCoverProcesses(processes, |processes|, EXCLUSIVE_POOL_ID);
  }

  lemma AcceptedPool(poolRequests: PoolRequestMap, name: string, processes: seq<Process>, limits: map<string, int>, pool: string)
    requires ContainerAccepted(poolRequests, name, processes) && pool in PoolsOf(processes, |processes|)
    requires name in poolRequests && Reads(poolRequests[name], limits, limits.Keys)
    requires HasPrefix(pool, EXCLUSIVE_POOL_ID)
    ensures IsBounded(processes, limits, poolRequests[name].pools, WithPrefix(limits.Keys, EXCLUSIVE_PREFIX), pool)
  {
    var k :| 0 <= k < |processes| && processes[k].poolName == pool;
    assert PoolAccepted(poolRequests, name, processes, processes[k].poolName);
    ExclusiveKey(poolRequests[name], limits, pool);
  }

  // ---- Pinning what was accepted ----

  /** Every CPU of the set has exactly one hyperthread sibling, and none within the set. */
  ghost predicate OneThreadPerCore(s: CPUSet, cores: Cores) {
    forall c | c in s :: exists t :: Twin(s, cores, c, t)
  }

  ghost predicate Twin(s: CPUSet, cores: Cores, c: nat, t: nat) {
    && t != c && t !in s && Siblings(cores, c, t)
    && forall u :: Siblings(cores, c, u) ==> u == c || u == t
  }

  /** Adding the siblings of two-way hyperthreading doubles the set. */
  lemma {:induction false} SiblingsDouble(s: CPUSet, cores: Cores)
    requires OneThreadPerCore(s, cores)
    ensures |AddSiblings(s, cores)| == 2 * |s|
  {
    if s == {} {
      assert AddSiblings(s, cores) == {};
    } else {
      var c := Member(s);
      var t :| Twin(s, cores, c, t);
      var rest := s - {c};
      forall d | d in rest ensures exists u :: Twin(rest, cores, d, u) {
        var u :| Twin(s, cores, d, u);
        assert Twin(rest, cores, d, u);
      }
      SiblingsDouble(rest, cores);
      TwoMore(s, cores, c, t);
      assert |{c, t}| == 2;
    }
  }

  lemma TwoMore(s: CPUSet, cores: Cores, c: nat, t: nat)
    requires OneThreadPerCore(s, cores) && c in s && Twin(s, cores, c, t)
    ensures AddSiblings(s, cores) == AddSiblings(s - {c}, cores) + {c, t}
    ensures c !in AddSiblings(s - {c}, cores) && t !in AddSiblings(s - {c}, cores)
  {
    var rest := s - {c};
    forall d | d in rest ensures !Siblings(cores, d, c) && !Siblings(cores, d, t) {
      var u :| Twin(s, cores, d, u);
    }
    forall x | x in AddSiblings(s, cores) ensures x in AddSiblings(rest, cores) + {c, t} {
      if x !in s {
        var d :| d in s && Siblings(cores, d, x);
        if d != c {
          assert HasSiblingIn(cores, rest, x);
        }
      }
    }
    forall x | x in AddSiblings(rest, cores) ensures x in AddSiblings(s, cores) {
      if x !in rest {
        var d :| d in rest && Siblings(cores, d, x);
        assert HasSiblingIn(cores, s, x);
      }
    }
    assert HasSiblingIn(cores, s, t);
  }

  /** Without overcommitment, distinct devices of a pool are distinct CPUs. */
  lemma OneCpuPerDevice(cpus: CPUSet, numbers: seq<nat>, numCPU: nat)
    requires numCPU > 0 && forall c | c in cpus :: c < numCPU
    requires PS.Distinct(numbers) && forall d | d in numbers :: d in AdvertisedNumbers(cpus, 1, numCPU) && d < UINT32_RANGE
    ensures |PluginSet(Printed(numbers), numCPU)| == |numbers|
  {
    DecodersAgree(numbers, numCPU);
    forall d | d in numbers ensures d % numCPU == d {
      var c: nat, l: nat :| c in cpus && l < 1 && DeviceNumber(c, l, numCPU) == d;
      DecodeNumber(c, l, numCPU);
    }
    assert PluginSet(Printed(numbers), numCPU) == PS.Members(numbers);
    PS.DistinctCount(numbers);
  }

  /** An accepted container with one two-way multiThreaded exclusive pool, not
      overcommitted, that got as many devices as it asked for: its processes never demand
      more CPUs than the plugin puts into the exclusive list. */
  lemma NeverRunsOut(poolRequests: PoolRequestMap, name: string, processes: seq<Process>, limits: map<string, int>,
                     plugin: Plugin, devices: seq<nat>)
    requires ContainerAccepted(poolRequests, name, processes)
    requires name in poolRequests && Reads(poolRequests[name], limits, limits.Keys)
    requires |devices| == poolRequests[name].exclusive
    requires forall k | k in limits :: limits[k] >= 0
    requires plugin.numCPU > 0 && plugin.poolType == EXCLUSIVE_POOL_ID && plugin.pool.htPolicy == MULTI_THREAD_POLICY
    requires forall c | c in plugin.pool.cpus :: c < plugin.numCPU
    requires PS.Distinct(devices)
    requires forall d | d in devices :: d in AdvertisedNumbers(plugin.pool.cpus, 1, plugin.numCPU) && d < UINT32_RANGE
    requires OneThreadPerCore(PluginSet(Printed(devices), plugin.numCPU), plugin.htTopology)
    ensures PS.Demand(processes, |processes|) <= |List(plugin.GrantedCPUs(Printed(devices)))|
  {
    AcceptedExclusive(poolRequests, name, processes, limits);
    OneCpuPerDevice(plugin.pool.cpus, devices, plugin.numCPU);
    SiblingsDouble(PluginSet(Printed(devices), plugin.numCPU), plugin.htTopology);
  }

  /** An exclusive plugin whose pool does not add siblings, and the distinct devices that a
      container got from it, as many as it asked for. */
  ghost predicate IsSingleThreaded(plugin: Plugin, devices: seq<nat>, requests: Requests) {
    && plugin.numCPU > 0 && plugin.poolType == EXCLUSIVE_POOL_ID && plugin.pool.htPolicy != MULTI_THREAD_POLICY
    && (forall c | c in plugin.pool.cpus :: c < plugin.numCPU)
    && PS.Distinct(devices) && |devices| == requests.exclusive
    && forall d | d in devices :: d in AdvertisedNumbers(plugin.pool.cpus, 1, plugin.numCPU) && d < UINT32_RANGE
  }

  /** From such a pool, processes find enough CPUs in the list exactly when they demand no
      more than the container's exclusive amount; the check allows them twice as much. */
  lemma SingleThreadedExactly(processes: seq<Process>, requests: Requests, plugin: Plugin, devices: seq<nat>)
    requires IsSingleThreaded(plugin, devices, requests)
    ensures PS.Demand(processes, |processes|) <= |List(plugin.GrantedCPUs(Printed(devices)))|
       <==> PS.Demand(processes, |processes|) <= requests.exclusive
  {
    OneCpuPerDevice(plugin.pool.cpus, devices, plugin.numCPU);
  }

  const EXAMPLE_PLUGIN :=
    Plugin(EXCLUSIVE_POOL_ID, Pool({0}, SINGLE_THREAD_POLICY, 0, map[]), {}, map[], map[], 2)

  lemma ExampleReads()
    ensures var limits := map[EXCLUSIVE_PREFIX := 1];
      Reads(Requests(0, 1, 0, map[EXCLUSIVE_POOL_ID := 1]), limits, limits.Keys)
  {
    var limits := map[EXCLUSIVE_PREFIX := 1];
    ReadsNothing(limits);
    assert SHARED_PREFIX[12] != EXCLUSIVE_PREFIX[12] && CLOUDPHONE_PREFIX[12] != EXCLUSIVE_PREFIX[12];
    PrefixesNest(EXCLUSIVE_PREFIX);
    ReadsAdded(NO_REQUESTS, limits, {}, EXCLUSIVE_PREFIX);
    assert EXCLUSIVE_PREFIX == POOL_PREFIX + EXCLUSIVE_POOL_ID;
    assert TrimPrefix(EXCLUSIVE_PREFIX, POOL_PREFIX) == EXCLUSIVE_POOL_ID;
    assert Add(NO_REQUESTS, EXCLUSIVE_PREFIX, 1) == Requests(0, 1, 0, map[EXCLUSIVE_POOL_ID := 1]);
    assert {} + {EXCLUSIVE_PREFIX} == limits.Keys;
  }

  lemma OnlyElement<T>(s: seq<T>)
    requires |s| == 1
    ensures forall x :: x in s <==> x == s[0]
  {
  }

  lemma OneDevice(plugin: Plugin, devices: seq<nat>, requests: Requests)
    requires plugin.poolType == EXCLUSIVE_POOL_ID && plugin.pool.htPolicy != MULTI_THREAD_POLICY
    requires plugin.pool.cpus == {0} && plugin.numCPU == 2 && requests.exclusive == 1
    requires |devices| == 1 && devices[0] == 0
    ensures IsSingleThreaded(plugin, devices, requests)
  {
    AdvertisesLayer(plugin.pool.cpus, 1, 2, 0, 0);
    assert DeviceNumber(0, 0, 2) == 0;
    OnlyElement(devices);
  }

  lemma ExampleSingleThreaded(requests: Requests)
    requires requests.exclusive == 1
    ensures IsSingleThreaded(EXAMPLE_PLUGIN, [0], requests)
  {
    assert SINGLE_THREAD_POLICY[0] != MULTI_THREAD_POLICY[0];
    OneDevice(EXAMPLE_PLUGIN, [0], requests);
  }

  lemma ExampleAccepted(requests: Requests, processes: seq<Process>)
    requires requests == Requests(0, 1, 0, map[EXCLUSIVE_POOL_ID := 1])
    requires processes == [Process("app", [], 2, EXCLUSIVE_POOL_ID)]
    ensures ContainerAccepted(map["c" := requests], "c", processes) && PS.Demand(processes, 1) == 2
  {
    assert !HasPrefix(EXCLUSIVE_POOL_ID, SHARED_POOL_ID) by {
      assert EXCLUSIVE_POOL_ID[0] != SHARED_POOL_ID[0];
    }
    assert SumPrefixed(processes, 0, SHARED_POOL_ID) == 0 && SumPrefixed(processes, 1, SHARED_POOL_ID) == 0;
    assert TotalOf(processes, 0, EXCLUSIVE_POOL_ID) == 0 && TotalOf(processes, 1, EXCLUSIVE_POOL_ID) == 2;
    assert PS.Demand(processes, 0) == 0;
  }

  /** The premises of NeverRunsOut but for the policy of the pool. */
  ghost predicate IsAcceptedSingleThreaded(processes: seq<Process>, requests: Requests, limits: map<string, int>,
                                           plugin: Plugin, devices: seq<nat>)
  {
    && ContainerAccepted(map["c" := requests], "c", processes)
    && Reads(requests, limits, limits.Keys) && (forall k | k in limits :: limits[k] >= 0)
    && IsSingleThreaded(plugin, devices, requests)
  }

  /** So with a singleThreaded pool an accepted annotation can make the starter run out of
      CPUs. */
  lemma SingleThreadedRunsOut()
    ensures exists processes: seq<Process>, requests: Requests, limits: map<string, int>, plugin: Plugin, devices: seq<nat> ::
      && IsAcceptedSingleThreaded(processes, requests, limits, plugin, devices)
      && PS.Demand(processes, |processes|) > |List(plugin.GrantedCPUs(Printed(devices)))|
  {
    var processes := [Process("app", [], 2, EXCLUSIVE_POOL_ID)];
    var requests := Requests(0, 1, 0, map[EXCLUSIVE_POOL_ID := 1]);
    var limits := map[EXCLUSIVE_PREFIX := 1];
    ExampleReads();
    ExampleSingleThreaded(requests);
    ExampleAccepted(requests, processes);
    SingleThreadedExactly(processes, requests, EXAMPLE_PLUGIN, [0]);
    assert IsAcceptedSingleThreaded(processes, requests, limits, EXAMPLE_PLUGIN, [0]);
  }

  /** The starter reads the annotation as a list and takes the first entry of its name with
      processes; the webhook keeps the last one. So the starter launches what was checked
      exactly when these two entries are equal, as they are without repeated names. */
  lemma {:induction false} LaunchesWhatWasChecked(entries: seq<AnnotatedContainer>, name: string, first: nat, last: nat)
    requires first < |entries| && entries[first].name == name && entries[first].processes != []
    requires forall k | 0 <= k < first :: entries[k].name != name || entries[k].processes == []
    requires last < |entries| && entries[last].name == name
    requires forall k | last < k < |entries| :: entries[k].name != name
    ensures name in ByName(entries, |entries|)
    ensures PS.FirstNamed(entries, name) == Some(ByName(entries, |entries|)[name]) <==> entries[first] == entries[last]
  {
    LastIsKept(entries, |entries|, last);
    FirstIsLaunched(entries, name, first);
  }

  lemma {:induction false} FirstIsLaunched(entries: seq<AnnotatedContainer>, name: string, i: nat)
    requires i < |entries| && entries[i].name == name && entries[i].processes != []
    requires forall j | 0 <= j < i :: entries[j].name != name || entries[j].processes == []
    ensures PS.FirstNamed(entries, name) == Some(entries[i])
  {
    if i > 0 {
      assert entries[1..][i - 1] == entries[i];
      assert forall j | 0 <= j < i - 1 :: entries[1..][j] == entries[j + 1];
      FirstIsLaunched(entries[1..], name, i - 1);
    }
  }
}
