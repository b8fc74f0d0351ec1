/** The device plugin that serves one pool to the kubelet. */
module DevicePlugin {
  import opened Wrappers
  import opened CpuSets
  import opened DeviceIds
  import opened GoText
  import opened Pools

  /** pluginapi.Device, with the NUMA node of its topology hint when it has one. */
  datatype Device = Device(id: string, node: Option<int>)

  /** The environment variables that an allocation adds to a container. */
  type Env = map<string, CPUSet>

  const SHARED_CPUS := "SHARED_CPUS"
  const EXCLUSIVE_CPUS := "EXCLUSIVE_CPUS"
  const CLOUDPHONE_CPUS := "CLOUDPHONE_CPUS"
  const NUMA_CPUS := "NUMA_CPUS"

  /** The keys of a core map that lie on a NUMA node. */
  function NodeCPUs(coreMap: map<nat, CoreTopology>, node: int): CPUSet {
    set cpu | cpu in coreMap && coreMap[cpu].node == node
  }

  function HintOf(nodes: map<nat, int>, cpu: nat): Option<int> {
    if cpu in nodes then Some(nodes[cpu]) else None
  }

  function DeviceOf(cpu: nat, layer: nat, numCPU: nat, nodes: map<nat, int>): Device {
    Device(Itoa(DeviceNumber(cpu, layer, numCPU)), HintOf(nodes, cpu))
  }

  /** The first layers of one CPU. */
  function LayerDevices(cpu: nat, layers: nat, numCPU: nat, nodes: map<nat, int>): (devices: seq<Device>)
    ensures |devices| == layers
  {
    seq(layers, layer requires 0 <= layer => DeviceOf(cpu, layer, numCPU, nodes))
  }

  /** The announcement of an exclusive or cloudphone pool: all layers of one CPU in turn. */
  function Announcement(cpus: seq<nat>, layers: nat, numCPU: nat, nodes: map<nat, int>): seq<Device> {
    if cpus == [] then [] else
      Announcement(cpus[..|cpus| - 1], layers, numCPU, nodes)
      + LayerDevices(cpus[|cpus| - 1], layers, numCPU, nodes)
  }

  /** The device cache after an announcement: keyed by ID, holding announced devices. */
  ghost predicate Caches(cache: map<string, Device>, devices: seq<Device>) {
    && (forall d | d in devices :: d.id in cache)
    && (forall id | id in cache :: cache[id].id == id && cache[id] in devices)
  }

  /** The part of a plugin's state that Allocate works from. */
  datatype Plugin = Plugin(poolType: string, pool: Pool, sharedPoolCPUs: CPUSet, htTopology: Cores,
                           cloudphoneCPUTopology: map<nat, CoreTopology>, numCPU: nat) {

    /** The CPUs a container gets for its device IDs, siblings included. */
    ghost function GrantedCPUs(ids: seq<string>): (granted: CPUSet)
      requires numCPU > 0
      ensures PluginSet(ids, numCPU) <= granted
    {
      var decoded := PluginSet(ids, numCPU);
      if pool.htPolicy == MULTI_THREAD_POLICY then AddSiblings(decoded, htTopology) else decoded
    }

    /** What Allocate puts into the environment of a container with these device IDs. */
    ghost function AllocatedEnv(ids: seq<string>): Env
      requires numCPU > 0 && PluginSet(ids, numCPU) != {}
    {
      var granted := GrantedCPUs(ids);
      if poolType == SHARED_POOL_ID then
        map[SHARED_CPUS := sharedPoolCPUs]
      else if poolType == CLOUDPHONE_POOL_ID then
        var node := NodeOf(cloudphoneCPUTopology, List(granted)[0]);
        map[CLOUDPHONE_CPUS := granted][NUMA_CPUS := NodeCPUs(pool.coreMap, node)]
      else
        map[EXCLUSIVE_CPUS := granted]
    }
  }

  class CpuDeviceManager {
    const poolType: string
    const sharedPoolCPUs: CPUSet
    const nodeTopology: map<nat, int>
    const htTopology: Cores
    const cloudphoneCPUTopology: map<nat, CoreTopology>
    const numCPU: nat
    var pool: Pool
    var cacheDevices: map<string, Device>

    constructor (poolName: string, pool: Pool, sharedCPUs: CPUSet, nodes: map<nat, int>, cores: Cores,
                 cloudphone: map<nat, CoreTopology>, numCPU: nat)
      ensures this.pool == pool && poolType == DeterminePoolType(poolName) && sharedPoolCPUs == sharedCPUs
      ensures nodeTopology == nodes && htTopology == cores && cloudphoneCPUTopology == cloudphone
      ensures this.numCPU == numCPU && cacheDevices == map[]
    {
      this.pool, this.poolType, this.sharedPoolCPUs := pool, DeterminePoolType(poolName), sharedCPUs;
      this.nodeTopology, this.htTopology, this.cloudphoneCPUTopology := nodes, cores, cloudphone;
      this.numCPU, this.cacheDevices := numCPU, map[];
    }

    /** One announcement of ListAndWatch: a thousand devices per CPU of a shared pool,
        one device per CPU and layer otherwise. The overcommitment is raised to one
        only when the pool has a CPU to announce. */
    method ListAndWatch() returns (devices: seq<Device>)
      modifies this`pool, this`cacheDevices
      ensures poolType == SHARED_POOL_ID ==>
        && |devices| == |pool.cpus| * 1000
        && (forall k | 0 <= k < |devices| :: devices[k] == Device(Itoa(k), None))
        && cacheDevices == map[] && pool == old(pool)
      ensures poolType != SHARED_POOL_ID ==>
        && devices == Announcement(List(pool.cpus), Layers(old(pool.overcommitment)), numCPU, nodeTopology)
        && Caches(cacheDevices, devices)
        && pool == old(pool).(overcommitment := if pool.cpus == {} then old(pool.overcommitment)
                                                else Layers(old(pool.overcommitment)))
    {
      if poolType == SHARED_POOL_ID {
        cacheDevices := map[];
        devices := AnnounceShared(|pool.cpus| * 1000);
      } else {
        devices := AnnounceLayers(List(pool.cpus));
      }
    }

    static method AnnounceShared(count: nat) returns (devices: seq<Device>)
      ensures |devices| == count
      ensures forall k | 0 <= k < count :: devices[k] == Device(Itoa(k), None)
    {
      devices := [];
      for i := 0 to count
        invariant |devices| == i
        invariant forall k | 0 <= k < i :: devices[k] == Device(Itoa(k), None)
      {
        devices := devices + [Device(Itoa(i), None)];
      }
    }

    method AnnounceLayers(cpus: seq<nat>) returns (devices: seq<Device>)
      modifies this`pool, this`cacheDevices
      ensures devices == Announcement(cpus, Layers(old(pool.overcommitment)), numCPU, nodeTopology)
      ensures Caches(cacheDevices, devices)
      ensures pool == old(pool).(overcommitment := if cpus == [] then old(pool.overcommitment)
                                                   else Layers(old(pool.overcommitment)))
    {
      ghost var layers := Layers(pool.overcommitment);
      cacheDevices := map[];
      devices := [];
      for i := 0 to |cpus|
        invariant pool == old(pool).(overcommitment := if i == 0 then old(pool.overcommitment) else layers)
        invariant devices == Announcement(cpus[..i], layers, numCPU, nodeTopology)
        invariant Caches(cacheDevices, devices)
      {
        if pool.overcommitment < 1 {
          pool := pool.(overcommitment := 1);
        }
        assert cpus[..i + 1][..i] == cpus[..i];
        devices := AnnounceCpu(cpus[i], pool.overcommitment, devices);
      }
      assert cpus[..|cpus|] == cpus;
    }

    /** The inner loop: every layer of one CPU. */
    method AnnounceCpu(cpu: nat, layers: nat, before: seq<Device>) returns (devices: seq<Device>)
      requires Caches(cacheDevices, before)
      modifies this`cacheDevices
      ensures devices == before + LayerDevices(cpu, layers, numCPU, nodeTopology)
      ensures Caches(cacheDevices, devices)
    {
      devices := before;
      for overID := 0 to layers
        invariant devices == before + LayerDevices(cpu, overID, numCPU, nodeTopology)
        invariant Caches(cacheDevices, devices)
      {
        var device := DeviceOf(cpu, overID, numCPU, nodeTopology);
        cacheDevices := cacheDevices[device.id := device];
        devices := devices + [device];
      }
    }

    ghost function ThisPlugin(): Plugin
      reads this`pool
    {
      Plugin(poolType, pool, sharedPoolCPUs, htTopology, cloudphoneCPUTopology, numCPU)
    }

    /** Allocate. A request without a readable device ID makes the program index an
        empty list, whatever the type of the pool. */
    method Allocate(requests: seq<seq<string>>) returns (responses: seq<Env>)
      requires numCPU > 0
      requires forall ids | ids in requests :: PluginSet(ids, numCPU) != {}
      ensures |responses| == |requests|
      ensures forall i | 0 <= i < |requests| :: responses[i] == ThisPlugin().AllocatedEnv(requests[i])
    {
      responses := [];
      for i := 0 to |requests|
        invariant |responses| == i
        invariant forall j | 0 <= j < i :: responses[j] == ThisPlugin().AllocatedEnv(requests[j])
      {
        assert requests[i] in requests;
        var env := AllocateContainer(requests[i]);
        responses := responses + [env];
      }
    }

    /** The body of the loop of Allocate. */
    method AllocateContainer(ids: seq<string>) returns (env: Env)
      requires numCPU > 0 && PluginSet(ids, numCPU) != {}
      ensures env == ThisPlugin().AllocatedEnv(ids)
    {
      var cpusAllocated := Grant(ids);
      env := map[];
      if poolType == SHARED_POOL_ID {
        env := env[SHARED_CPUS := sharedPoolCPUs];
      } else if poolType == CLOUDPHONE_POOL_ID {
        env := env[CLOUDPHONE_CPUS := cpusAllocated];
        var numaCPUs := CpusOnNode(NodeOf(cloudphoneCPUTopology, List(cpusAllocated)[0]));
        env := env[NUMA_CPUS := numaCPUs];
      } else {
        env := env[EXCLUSIVE_CPUS := cpusAllocated];
      }
    }

    method Grant(ids: seq<string>) returns (cpusAllocated: CPUSet)
      requires numCPU > 0
      ensures cpusAllocated == ThisPlugin().GrantedCPUs(ids)
    {
      cpusAllocated := PluginDecode(ids, numCPU);
      if pool.htPolicy == MULTI_THREAD_POLICY {
        cpusAllocated := AddSiblings(cpusAllocated, htTopology);
      }
    }

    /** The loop over the core map of the pool, visited in any order. */
    method CpusOnNode(node: int) returns (cpus: CPUSet)
      ensures cpus == NodeCPUs(pool.coreMap, node)
    {
      cpus := {};
      var remaining := pool.coreMap.Keys;
      while remaining != {}
        invariant remaining <= pool.coreMap.Keys
        invariant cpus == set cpu | cpu in pool.coreMap.Keys - remaining && pool.coreMap[cpu].node == node
        decreases remaining
      {
        var cpu :| cpu in remaining;
        if pool.coreMap[cpu].node == node {
          cpus := cpus + {cpu};
        }
        remaining := remaining - {cpu};
      }
    }
  }

  ghost predicate Announces(cpus: seq<nat>, layers: nat, numCPU: nat, nodes: map<nat, int>, d: Device) {
    exists i, layer: nat :: 0 <= i < |cpus| && layer < layers && d == DeviceOf(cpus[i], layer, numCPU, nodes)
  }

  lemma {:induction false} AnnouncementMembers(cpus: seq<nat>, layers: nat, numCPU: nat, nodes: map<nat, int>, d: Device)
    ensures d in Announcement(cpus, layers, numCPU, nodes) <==> Announces(cpus, layers, numCPU, nodes, d)
  {
    if cpus != [] {
      var n := |cpus| - 1;
      var front, last := cpus[..n], LayerDevices(cpus[n], layers, numCPU, nodes);
      AnnouncementMembers(front, layers, numCPU, nodes, d);
      if Announces(front, layers, numCPU, nodes, d) {
        var i, layer: nat :| 0 <= i < n && layer < layers && d == DeviceOf(front[i], layer, numCPU, nodes);
        assert cpus[i] == front[i];
      }
      if d in last {
        var layer :| 0 <= layer < layers && last[layer] == d;
        assert d == DeviceOf(cpus[n], layer, numCPU, nodes);
      }
      if Announces(cpus, layers, numCPU, nodes, d) {
        var i, layer: nat :| 0 <= i <= n && layer < layers && d == DeviceOf(cpus[i], layer, numCPU, nodes);
        if i < n {
          assert front[i] == cpus[i];
        } else {
          assert last[layer] == d;
        }
      }
    }
  }

  lemma {:induction false} AnnouncedCount(cpus: seq<nat>, layers: nat, numCPU: nat, nodes: map<nat, int>)
    ensures |Announcement(cpus, layers, numCPU, nodes)| == |cpus| * layers
  {
    if cpus != [] {
      AnnouncedCount(cpus[..|cpus| - 1], layers, numCPU, nodes);
      assert |cpus| * layers == (|cpus| - 1) * layers + layers;
    }
  }

  lemma PositionFits(i: nat, layer: nat, layers: nat, n: nat)
    requires i < n && layer < layers
    ensures i * layers + layer < n * layers
  {
    MulMono(i + 1, n, layers);
  }

  /** The devices come CPU by CPU and, for each, layer by layer. */
  lemma {:induction false} AnnouncedInOrder(cpus: seq<nat>, layers: nat, numCPU: nat, nodes: map<nat, int>, i: nat, layer: nat)
    requires i < |cpus| && layer < layers
    ensures |Announcement(cpus, layers, numCPU, nodes)| == |cpus| * layers && i * layers + layer < |cpus| * layers
    ensures Announcement(cpus, layers, numCPU, nodes)[i * layers + layer] == DeviceOf(cpus[i], layer, numCPU, nodes)
  {
    AnnouncedCount(cpus, layers, numCPU, nodes);
    AnnouncedCount(cpus[..|cpus| - 1], layers, numCPU, nodes);
    PositionFits(i, layer, layers, |cpus|);
    if i < |cpus| - 1 {
      PositionFits(i, layer, layers, |cpus| - 1);
      AnnouncedInOrder(cpus[..|cpus| - 1], layers, numCPU, nodes, i, layer);
    }
  }

  /** The announced IDs are the printed device numbers of the pool, and no others. */
  lemma AnnouncedNumbers(cpus: CPUSet, layers: nat, numCPU: nat, nodes: map<nat, int>, id: string)
    ensures (exists d :: d in Announcement(List(cpus), layers, numCPU, nodes) && d.id == id)
       <==> (exists n :: n in AdvertisedNumbers(cpus, layers, numCPU) && Itoa(n) == id)
  {
    var list := List(cpus);
    var devices := Announcement(list, layers, numCPU, nodes);
    if d :| d in devices && d.id == id {
      AnnouncementMembers(list, layers, numCPU, nodes, d);
      var i, layer: nat :| 0 <= i < |list| && layer < layers && d == DeviceOf(list[i], layer, numCPU, nodes);
      assert list[i] in cpus;
      assert DeviceNumber(list[i], layer, numCPU) in AdvertisedNumbers(cpus, layers, numCPU);
    }
    if n :| n in AdvertisedNumbers(cpus, layers, numCPU) && Itoa(n) == id {
      var c: nat, l: nat :| c in cpus && l < layers && DeviceNumber(c, l, numCPU) == n;
      var i :| 0 <= i < |list| && list[i] == c;
      var d := DeviceOf(c, l, numCPU, nodes);
      AnnouncementMembers(list, layers, numCPU, nodes, d);
      assert d in devices && d.id == id;
    }
  }

  lemma DeviceIdInjective(c1: nat, l1: nat, c2: nat, l2: nat, numCPU: nat, nodes: map<nat, int>)
    requires c1 < numCPU && c2 < numCPU
    ensures DeviceOf(c1, l1, numCPU, nodes).id == DeviceOf(c2, l2, numCPU, nodes).id <==> c1 == c2 && l1 == l2
  {
    ItoaInjective(DeviceNumber(c1, l1, numCPU), DeviceNumber(c2, l2, numCPU));
    NumberingInjective(c1, l1, c2, l2, numCPU);
  }

  ghost predicate DistinctIds(devices: seq<Device>) {
    forall i, j | 0 <= i < j < |devices| :: devices[i].id != devices[j].id
  }

  lemma DistinctConcat(front: seq<Device>, last: seq<Device>)
    requires DistinctIds(front) && DistinctIds(last)
    requires forall d, e | d in front && e in last :: d.id != e.id
    ensures DistinctIds(front + last)
  {
    var devices := front + last;
    forall i, j | 0 <= i < j < |devices| ensures devices[i].id != devices[j].id {
      if i < |front| <= j {
        assert devices[i] in front && devices[j] in last;
      }
    }
  }

  /** With all pool CPUs below numCPU, no ID is announced twice. */
  lemma {:induction false} AnnouncedOnce(cpus: seq<nat>, layers: nat, numCPU: nat, nodes: map<nat, int>)
    requires forall i | 0 <= i < |cpus| :: cpus[i] < numCPU
    requires forall i, j | 0 <= i < j < |cpus| :: cpus[i] != cpus[j]
    ensures DistinctIds(Announcement(cpus, layers, numCPU, nodes))
  {
    if cpus != [] {
      var n := |cpus| - 1;
      var front, last := Announcement(cpus[..n], layers, numCPU, nodes), LayerDevices(cpus[n], layers, numCPU, nodes);
      AnnouncedOnce(cpus[..n], layers, numCPU, nodes);
      forall k: nat, l: nat | k < l < layers ensures last[k].id != last[l].id {
        DeviceIdInjective(cpus[n], k, cpus[n], l, numCPU, nodes);
      }
      forall d, e | d in front && e in last ensures d.id != e.id {
        AnnouncementMembers(cpus[..n], layers, numCPU, nodes, d);
        var i, k: nat :| 0 <= i < n && k < layers && d == DeviceOf(cpus[..n][i], k, numCPU, nodes);
        var l :| 0 <= l < layers && last[l] == e;
        DeviceIdInjective(cpus[i], k, cpus[n], l, numCPU, nodes);
      }
      DistinctConcat(front, last);
    }
  }

  /** So the cache maps every announced ID to the very device announced under it. */
  lemma CacheExact(cpus: seq<nat>, layers: nat, numCPU: nat, nodes: map<nat, int>, cache: map<string, Device>, d: Device)
    requires forall i | 0 <= i < |cpus| :: cpus[i] < numCPU
    requires Caches(cache, Announcement(cpus, layers, numCPU, nodes))
    requires d in Announcement(cpus, layers, numCPU, nodes)
    ensures cache[d.id] == d
  {
    var e := cache[d.id];
    AnnouncementMembers(cpus, layers, numCPU, nodes, d);
    AnnouncementMembers(cpus, layers, numCPU, nodes, e);
    var i, k: nat :| 0 <= i < |cpus| && k < layers && d == DeviceOf(cpus[i], k, numCPU, nodes);
    var j, l: nat :| 0 <= j < |cpus| && l < layers && e == DeviceOf(cpus[j], l, numCPU, nodes);
    DeviceIdInjective(cpus[i], k, cpus[j], l, numCPU, nodes);
  }

  /** The hint cached under the number of an announced device is the node of its CPU, if
      that is known. */
  lemma CachedHint(cpus: seq<nat>, layers: nat, numCPU: nat, nodes: map<nat, int>, cache: map<string, Device>, n: nat)
    requires forall i | 0 <= i < |cpus| :: cpus[i] < numCPU
    requires Caches(cache, Announcement(cpus, layers, numCPU, nodes)) && Itoa(n) in cache
    ensures numCPU > 0 && n % numCPU in cpus
    ensures cache[Itoa(n)].node == if n % numCPU in nodes then Some(nodes[n % numCPU]) else None
  {
    var d := cache[Itoa(n)];
    AnnouncementMembers(cpus, layers, numCPU, nodes, d);
    var i, k: nat :| 0 <= i < |cpus| && k < layers && d == DeviceOf(cpus[i], k, numCPU, nodes);
    ItoaInjective(DeviceNumber(cpus[i], k, numCPU), n);
    DecodeNumber(cpus[i], k, numCPU);
  }
}
