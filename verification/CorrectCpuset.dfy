/** determineCorrectCpuset: the CPUs on which the setter wants a container to run. */
module CorrectCpuset {
  import opened Wrappers
  import opened CpuSets
  import opened DeviceIds
  import opened Checkpoint
  import opened GoText
  import opened Pools

  datatype Kind = SharedKind | ExclusiveKind | CloudphoneKind | OtherKind

  /** The setter classifies a resource by what its name contains. */
  function SetterKind(resource: string): Kind {
    if !Contains(resource, RESOURCE_BASE_NAME) then OtherKind
    else if Contains(resource, SHARED_POOL_ID) then SharedKind
    else if Contains(resource, EXCLUSIVE_POOL_ID) then ExclusiveKind
    else if Contains(resource, CLOUDPHONE_POOL_ID) then CloudphoneKind
    else OtherKind
  }

  function UntilSlash(s: string): string {
    if s == "" || s[0] == '/' then "" else [s[0]] + UntilSlash(s[1..])
  }

  /** strings.Split(s, "/")[1], for a name with a slash */
  function SecondPart(s: string): string
    requires '/' in s
  {
    if s[0] == '/' then UntilSlash(s[1..]) else SecondPart(s[1..])
  }

  datatype Decision = Decided(config: CPUSet, cgroup: CPUSet) | Undecidable

  /** How far the loop over the requested resources has come. */
  datatype Progress = Going(shared: CPUSet, exclusive: CPUSet) | Stopped(decision: Decision)

  /** The part of the setter's state from which it decides. Every call of SelectPool visits
      the pools anew, so each may answer with any pool that matches. */
  datatype Setter = Setter(pools: PoolConfig, numCPU: nat, cores: Cores, checkpoint: Option<seq<Entry>>) {

    /** getListOfAllocatedExclusiveCpus, including the checkpoint that cannot be read. */
    function AllocatedCpus(podUID: string, name: string, resource: string): Option<CPUSet>
      requires numCPU > 0
    {
      if checkpoint.None? then None
      else SetterSet(AllocatedIds(checkpoint.value, podUID, name, resource), numCPU)
    }

    /** The cores of a core map's entries on one NUMA node. */
    static function CoresOnNode(coreMap: map<nat, CoreTopology>, node: int): CPUSet {
      set k | k in coreMap && coreMap[k].node == node :: coreMap[k].core
    }

    ghost predicate MayBeShared(shared: CPUSet) {
      exists pool :: Selects(pools, SHARED_POOL_ID, pool) && shared == pool.cpus
    }

    ghost predicate MayBeDefault(cpus: CPUSet) {
      exists pool :: Selects(pools, DEFAULT_POOL_ID, pool) && cpus == pool.cpus
    }

    /** The CPUs with their siblings, if the selected pool is multiThreaded. */
    function Expanded(pool: Pool, cpus: CPUSet): CPUSet {
      if pool.htPolicy == MULTI_THREAD_POLICY then AddSiblings(cpus, cores) else cpus
    }

    ghost predicate MayExpand(resource: string, cpus: CPUSet, expanded: CPUSet)
      requires '/' in resource
    {
      exists pool :: Selects(pools, SecondPart(resource), pool) && expanded == Expanded(pool, cpus)
    }

    /** The cloudphone branch selects twice: a pool for the node, and one for its cores. */
    ghost predicate MayBeCores(resource: string, cpus: CPUSet, cgroup: CPUSet)
      requires '/' in resource && cpus != {}
    {
      exists first, second :: Selects(pools, SecondPart(resource), first) && Selects(pools, SecondPart(resource), second)
                              && cgroup == CoresOnNode(second.coreMap, NodeOf(first.coreMap, List(cpus)[0]))
    }

    ghost predicate MayCombine(shared: CPUSet, exclusive: CPUSet, cpus: CPUSet) {
      if shared != {} || exclusive != {} then cpus == shared + exclusive else MayBeDefault(cpus)
    }

    /** The end of determineCorrectCpuset. */
    method CombineOrDefault(shared: CPUSet, exclusive: CPUSet) returns (cpus: CPUSet)
      ensures MayCombine(shared, exclusive, cpus)
    {
      if shared != {} || exclusive != {} {
        return shared + exclusive;
      }
      var defaultPool := SelectPool(pools, DEFAULT_POOL_ID);
      return defaultPool.cpus;
    }

    /** Siblings are added under the policy of the selected pool. */
    method Expand(resource: string, cpus: CPUSet) returns (expanded: CPUSet)
      requires '/' in resource
      ensures MayExpand(resource, cpus, expanded)
    {
      expanded := cpus;
      var pool := SelectPool(pools, SecondPart(resource));
      if pool.htPolicy == MULTI_THREAD_POLICY {
        expanded := AddSiblings(expanded, cores);
      }
    }

    static method GatherCores(coreMap: map<nat, CoreTopology>, node: int) returns (cgroup: CPUSet)
      ensures cgroup == CoresOnNode(coreMap, node)
    {
      cgroup := {};
      var remaining := coreMap.Keys;
      while remaining != {}
        invariant remaining <= coreMap.Keys
        invariant cgroup == set k | k in coreMap.Keys - remaining && coreMap[k].node == node :: coreMap[k].core
        decreases remaining
      {
        var k :| k in remaining;
        if coreMap[k].node == node {
          cgroup := cgroup + {coreMap[k].core};
        }
        remaining := remaining - {k};
      }
    }
  }

  /** What the kubelet records for another pod, another container or another resource does
      not change the CPUs that the setter reads. */
  lemma NeighboursIgnored(setter: Setter, front: seq<Entry>, other: Entry, back: seq<Entry>,
                          podUID: string, name: string, resource: string)
    requires setter.numCPU > 0 && setter.checkpoint == Some(front + [other] + back)
    requires other.podUID != podUID || other.containerName != name || other.resourceName != resource
    ensures setter.AllocatedCpus(podUID, name, resource)
         == setter.(checkpoint := Some(front + back)).AllocatedCpus(podUID, name, resource)
  {
    OthersIgnored(front, other, back, podUID, name, resource);
  }

  /** The names the program splits have a second part; it indexes out of range otherwise. */
  ghost predicate IsSplittable(resources: set<string>) {
    forall r | r in resources && (SetterKind(r) == ExclusiveKind || SetterKind(r) == CloudphoneKind) :: '/' in r
  }

  /** What the setter looks at for one container: the names of its requested resources. */
  datatype Container = Container(setter: Setter, podUID: string, name: string, resources: set<string>) {

    ghost predicate Valid() {
      setter.numCPU > 0 && IsSplittable(resources)
    }

    function Allocated(r: string): Option<CPUSet>
      requires setter.numCPU > 0
    {
      setter.AllocatedCpus(podUID, name, r)
    }

    ghost predicate MayDecideCloudphone(r: string, decision: Decision)
      requires setter.numCPU > 0 && '/' in r
    {
      match Allocated(r)
      case None => decision == Undecidable
      case Some(cpus) =>
        if cpus == {} then decision == Undecidable
        else decision.Decided? && decision.config == cpus && setter.MayBeCores(r, cpus, decision.cgroup)
    }

    /** One iteration of the loop over the resources, with any answers of SelectPool. */
    ghost predicate MayVisit(before: Progress, r: string, after: Progress)
      requires Valid() && r in resources
    {
      if before.Stopped? then after == before else
        match SetterKind(r)
        case SharedKind => after.Going? && after.exclusive == before.exclusive && setter.MayBeShared(after.shared)
        case ExclusiveKind =>
          (match Allocated(r)
           case None => after == Stopped(Undecidable)
           case Some(cpus) => after.Going? && after.shared == before.shared && setter.MayExpand(r, cpus, after.exclusive))
        case CloudphoneKind => after.Stopped? && MayDecideCloudphone(r, after.decision)
        case OtherKind => after == before
    }

    /** Where the loop can be after visiting these resources in this order. */
    ghost predicate MayReach(order: seq<string>, progress: Progress)
      requires Valid() && forall r | r in order :: r in resources
    {
      if order == [] then progress == Going({}, {}) else
        var r := order[|order| - 1];
        exists before {:trigger MayVisit(before, r, progress)} ::
          MayReach(order[..|order| - 1], before) && MayVisit(before, r, progress)
    }

    ghost predicate MayEnd(progress: Progress, decision: Decision) {
      match progress
      case Stopped(d) => decision == d
      case Going(shared, exclusive) =>
        decision.Decided? && decision.config == decision.cgroup && setter.MayCombine(shared, exclusive, decision.cgroup)
    }

    ghost predicate MayDecideBy(order: seq<string>, decision: Decision)
      requires Valid() && forall r | r in order :: r in resources
    {
      exists progress :: MayReach(order, progress) && MayEnd(progress, decision)
    }

    /** What determineCorrectCpuset may answer: Go visits the map of requests in any order,
        and so does every call of SelectPool with the map of pools. */
    ghost predicate May(decision: Decision) {
      Valid() && exists order {:trigger MayDecideBy(order, decision)} :: IsOrder(order, resources) && MayDecideBy(order, decision)
    }

    /** A CPU set that the setter may want for the container's cgroup. */
    ghost predicate MayHold(cgroup: CPUSet) {
      exists config {:trigger Decided(config, cgroup)} :: May(Decided(config, cgroup))
    }

    /** determineCorrectCpuset */
    method DetermineCorrectCpuset() returns (decision: Decision)
      requires Valid()
      ensures May(decision)
    {
      var shared: CPUSet, exclusive: CPUSet := {}, {};
      var remaining := resources;
      ghost var order: seq<string> := [];
      while remaining != {}
        invariant remaining <= resources && IsOrder(order, resources - remaining)
        invariant MayReach(order, Going(shared, exclusive))
        decreases remaining
      {
        var r :| r in remaining;
        ghost var before := Going(shared, exclusive);
        match SetterKind(r) {
          case SharedKind =>
            var pool := SelectPool(setter.pools, SHARED_POOL_ID);
            shared := pool.cpus;
            assert setter.MayBeShared(shared);
          case ExclusiveKind =>
            var cpus := ListAllocated(r);
            if cpus.None? {
              decision := Undecidable;
              StopDecides(order, resources - remaining, r, before, Stopped(decision));
              return;
            }
            exclusive := setter.Expand(r, cpus.value);
          case CloudphoneKind =>
            decision := DecideCloudphone(r);
            StopDecides(order, resources - remaining, r, before, Stopped(decision));
            return;
          case OtherKind =>
        }
        Proceed(order, remaining, r, before, Going(shared, exclusive));
        remaining := remaining - {r};
        order := order + [r];
      }
      var cpus := setter.CombineOrDefault(shared, exclusive);
      decision := Decided(cpus, cpus);
      assert resources - remaining == resources;
      EndDecides(order, shared, exclusive, cpus);
    }

    lemma ReachNext(order: seq<string>, r: string, before: Progress, after: Progress)
      requires Valid() && (forall x | x in order :: x in resources) && r in resources
      requires MayReach(order, before) && MayVisit(before, r, after)
      ensures MayReach(order + [r], after)
    {
      assert (order + [r])[..|order|] == order && (order + [r])[|order|] == r;
    }

    lemma Proceed(order: seq<string>, remaining: set<string>, r: string, before: Progress, after: Progress)
      requires Valid() && remaining <= resources && IsOrder(order, resources - remaining) && r in remaining
      requires MayReach(order, before) && MayVisit(before, r, after)
      ensures IsOrder(order + [r], resources - (remaining - {r})) && MayReach(order + [r], after)
    {
      ReachNext(order, r, before, after);
      OrderOn(order, resources - remaining, r);
      assert resources - remaining + {r} == resources - (remaining - {r});
    }

    lemma EndDecides(order: seq<string>, shared: CPUSet, exclusive: CPUSet, cgroup: CPUSet)
      requires Valid() && IsOrder(order, resources) && MayReach(order, Going(shared, exclusive))
      requires setter.MayCombine(shared, exclusive, cgroup)
      ensures May(Decided(cgroup, cgroup))
    {
      assert MayEnd(Going(shared, exclusive), Decided(cgroup, cgroup));
      assert MayDecideBy(order, Decided(cgroup, cgroup));
    }

    /** Once it has stopped, the loop's decision stays whatever would be visited after. */
    lemma {:induction false} StopStays(order: seq<string>, rest: seq<string>, progress: Progress)
      requires Valid() && forall x | x in order + rest :: x in resources
      requires progress.Stopped? && MayReach(order, progress)
      ensures MayReach(order + rest, progress)
    {
      if rest == [] {
        assert order + rest == order;
      } else {
        var front, last := rest[..|rest| - 1], rest[|rest| - 1];
        assert order + rest == (order + front) + [last];
        StopStays(order, front, progress);
        assert last in order + rest;
        ReachNext(order + front, last, progress, progress);
      }
    }

    /** A decision in the middle of an order is one of a whole order. */
    lemma StopDecides(order: seq<string>, seen: set<string>, r: string, before: Progress, after: Progress)
      requires Valid() && IsOrder(order, seen) && seen <= resources && r in resources - seen && after.Stopped?
      requires MayReach(order, before) && MayVisit(before, r, after)
      ensures May(after.decision)
    {
      var rest := SomeOrder(resources - seen - {r});
      ReachNext(order, r, before, after);
      OrderOn(order, seen, r);
      OrdersJoin(order + [r], seen + {r}, rest, resources - seen - {r});
      assert seen + {r} + (resources - seen - {r}) == resources;
      StopStays(order + [r], rest, after);
      assert MayEnd(after, after.decision);
      assert MayDecideBy(order + [r] + rest, after.decision);
    }

    method ListAllocated(r: string) returns (cpus: Option<CPUSet>)
      requires setter.numCPU > 0
      ensures cpus == Allocated(r)
    {
      if setter.checkpoint.None? {
        return None;
      }
      cpus := AllocatedExclusiveCpus(setter.checkpoint.value, podUID, name, r, setter.numCPU);
    }

    /** The cloudphone branch, with its two separate pool selections. */
    method DecideCloudphone(r: string) returns (decision: Decision)
      requires setter.numCPU > 0 && '/' in r
      ensures MayDecideCloudphone(r, decision)
    {
      var cpus := ListAllocated(r);
      if cpus.None? || cpus.value == {} {
        return Undecidable;
      }
      var first := SelectPool(setter.pools, SecondPart(r));
      var node := NodeOf(first.coreMap, List(cpus.value)[0]);
      var second := SelectPool(setter.pools, SecondPart(r));
      var cgroup := Setter.GatherCores(second.coreMap, node);
      return Decided(cpus.value, cgroup);
    }
  }
}
