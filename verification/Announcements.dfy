/** What the plugins announce and answer, as the kubelet's runs and the preferred allocation
    presuppose it. */
module Announcements {
  import opened Wrappers
  import opened CpuSets
  import opened DeviceIds
  import opened DevicePlugin
  import opened GoText
  import opened PreferredAllocation
  import Isolation

  // ---- Nodes of devices ----

  /** The nodes that the program reads from the topology hints in its device cache. */
  ghost predicate AreHints(nodes: map<nat, int>, cache: map<string, Device>) {
    forall n | n in nodes :: Itoa(n) in cache && cache[Itoa(n)].node == Some(nodes[n])
  }

  /** So for a plugin that has announced its devices, the nodes by which the free devices are
      grouped are those of their CPUs, and every request for distinct devices is of this
      kind. */
  lemma HintsAgree(request: Request, nodes: map<nat, int>, pick: int, numCPU: nat, topology: map<nat, int>,
                   cpus: seq<nat>, layers: nat, cache: map<string, Device>)
    requires request.size >= 1 && forall i, j | 0 <= i < j < |request.available| :: request.available[i] != request.available[j]
    requires forall id | id in request.available :: id in nodes
    requires exists id :: id in request.available && nodes[id] == pick
    requires (forall i | 0 <= i < |cpus| :: cpus[i] < numCPU) && AreHints(nodes, cache)
    requires Caches(cache, Announcement(cpus, layers, numCPU, topology))
    ensures NodesAgree(request, nodes, pick, numCPU, topology)
  {
    forall id | id in request.available
      ensures numCPU > 0 && id % numCPU in topology && topology[id % numCPU] == nodes[id]
    {
      CachedHint(cpus, layers, numCPU, topology, cache, id);
    }
  }

  // ---- Advertised devices ----

  /** An announcement of the plugin that serves the pool. */
  ghost predicate IsAnnounced(node: Isolation.Node, pool: string, topology: map<nat, int>, devices: seq<Device>) {
    if pool in node.pools
    then devices == Announcement(List(node.pools[pool].cpus), Layers(node.pools[pool].overcommitment), node.numCPU, topology)
    else
      && pool in node.shared && |devices| == |node.shared[pool].cpus| * 1000
      && forall k | 0 <= k < |devices| :: devices[k] == Device(Itoa(k), None)
  }

  ghost predicate HasId(devices: seq<Device>, id: string) {
    exists d :: d in devices && d.id == id
  }

  /** The devices that the kubelet can hand out in a run are those with an announced ID. */
  lemma AdvertisedExactly(node: Isolation.Node, pool: string, topology: map<nat, int>, devices: seq<Device>, n: nat)
    requires IsAnnounced(node, pool, topology, devices)
    ensures n in node.Advertised(pool) <==> HasId(devices, Itoa(n))
  {
    if pool in node.pools {
      var p := node.pools[pool];
      AnnouncedNumbers(p.cpus, Layers(p.overcommitment), node.numCPU, topology, Itoa(n));
      if m :| m in AdvertisedNumbers(p.cpus, Layers(p.overcommitment), node.numCPU) && Itoa(m) == Itoa(n) {
        ItoaInjective(m, n);
      }
    } else {
      SharedIds(devices, n);
    }
  }

  lemma SharedIds(devices: seq<Device>, n: nat)
    requires forall k | 0 <= k < |devices| :: devices[k] == Device(Itoa(k), None)
    ensures n < |devices| <==> HasId(devices, Itoa(n))
  {
    if n < |devices| {
      assert devices[n] in devices;
    }
    if d :| d in devices && d.id == Itoa(n) {
      var k :| 0 <= k < |devices| && devices[k] == d;
      ItoaInjective(k, n);
    }
  }

  // ---- Granted CPUs ----

  lemma OpenedBySet(node: Isolation.Node, pool: string, plugin: Plugin, ids: seq<string>, t: nat)
    requires pool in node.pools && plugin.pool == node.pools[pool] && plugin.htTopology == node.cores && plugin.numCPU > 0
    ensures t in plugin.GrantedCPUs(ids) <==> exists c :: c in PluginSet(ids, plugin.numCPU) && t in node.Opens(pool, c)
  {
    Isolation.ExpandedByMember(PluginSet(ids, plugin.numCPU), node.cores, t);
  }

  /** A CPU is in the list that the plugin gives for some devices exactly when one of these
      devices opens it. */
  lemma GrantedIsOpened(node: Isolation.Node, pool: string, plugin: Plugin, numbers: seq<nat>, t: nat)
    requires pool in node.pools && plugin.pool == node.pools[pool] && plugin.htTopology == node.cores
    requires plugin.numCPU == node.numCPU > 0 && forall d | d in numbers :: d < UINT32_RANGE
    ensures t in plugin.GrantedCPUs(Printed(numbers)) <==> exists d :: d in numbers && t in node.Opens(pool, d % node.numCPU)
  {
    OpenedBySet(node, pool, plugin, Printed(numbers), t);
    DecodersAgree(numbers, node.numCPU);
    var decoded := PluginSet(Printed(numbers), node.numCPU);
    if c :| c in decoded && t in node.Opens(pool, c) {
      var d :| d in numbers && d % node.numCPU == c;
    }
    if d :| d in numbers && t in node.Opens(pool, d % node.numCPU) {
      assert d % node.numCPU in decoded;
    }
  }
}
