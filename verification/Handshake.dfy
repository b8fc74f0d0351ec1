/** The agreement at the centre of CPU-Pooler: the CPU set that the process starter waits
    for is the one that the setter writes. */
module Handshake {
  import opened Wrappers
  import opened CpuSets
  import opened DeviceIds
  import opened DevicePlugin
  import opened Checkpoint
  import opened CorrectCpuset
  import opened CpusetOrder
  import opened GoText
  import opened Pools
  import opened PoolRequests
  import PS = ProcessStarter

  /** One node with its pools, and the hardware as both programs read it. */
  datatype Node = Node(pools: PoolConfig, numCPU: nat, cores: Cores, cloudphone: map<nat, CoreTopology>, sharedCPUs: CPUSet) {

    /** The plugin serving a pool. */
    function PluginOf(pool: string): Plugin
      requires pool in pools
    {
      Plugin(DeterminePoolType(pool), pools[pool], sharedCPUs, cores, cloudphone, numCPU)
    }

    ghost predicate Valid() {
      0 < numCPU < UINT32_RANGE
    }

    /** The shared pools are alike and not empty, and the plugins know their CPUs. */
    ghost predicate KnowsShared() {
      sharedCPUs != {} && forall s | IsShared(pools, s) :: pools[s].cpus == sharedCPUs
    }
  }

  function PoolOf(resource: string): string {
    TrimPrefix(resource, POOL_PREFIX)
  }

  /** The kind by the resource's prefix, as the webhook and the plugin classify it. */
  function KindByPrefix(resource: string): Kind {
    if HasPrefix(resource, SHARED_PREFIX) then SharedKind
    else if HasPrefix(resource, EXCLUSIVE_PREFIX) then ExclusiveKind
    else if HasPrefix(resource, CLOUDPHONE_PREFIX) then CloudphoneKind
    else OtherKind
  }

  /** A container with its limits, as the webhook reads them, and the names of what it
      requests, as the setter visits them. By resource: its kind and, for the resources of
      pools, the devices the kubelet gave and the variables the plugin answered with. */
  datatype Request = Request(node: Node, podUID: string, name: string, limits: map<string, int>, requested: set<string>,
                             kinds: map<string, Kind>, devices: map<string, seq<nat>>, answers: map<string, Env>,
                             checkpoint: seq<Entry>) {

    /** A resource belongs to a pool and all programs classify it alike; the plugin of the
        pool answered for the devices, which it had numbered, and the kubelet recorded them.
        As for every extended resource, request and limit go together. */
    ghost predicate Sound(r: string) {
      && r in limits && limits[r] > 0 && r in requested
      && HasPrefix(r, POOL_PREFIX) && PoolOf(r) in node.pools && '/' !in PoolOf(r)
      && r in kinds && kinds[r] == KindByPrefix(r) == SetterKind(r) && kinds[r] != OtherKind
      && r in devices && devices[r] != [] && (forall d | d in devices[r] :: d < UINT32_RANGE)
      && Records(checkpoint, podUID, name, r, Printed(devices[r]))
      && node.numCPU > 0 && PluginSet(Printed(devices[r]), node.numCPU) != {}
      && r in answers && answers[r] == node.PluginOf(PoolOf(r)).AllocatedEnv(Printed(devices[r]))
      && (kinds[r] == SharedKind ==> node.KnowsShared())
    }

    /** Any other resource, such as memory: no program takes it for a pool's. */
    ghost predicate Foreign(r: string) {
      r in kinds && kinds[r] == KindByPrefix(r) == SetterKind(r) == OtherKind && r !in answers
    }

    ghost predicate Fits(r: string) {
      Sound(r) || Foreign(r)
    }

    ghost predicate Valid() {
      && node.Valid()
      && kinds.Keys == limits.Keys + requested && answers.Keys <= kinds.Keys
      && forall r {:trigger Fits(r)} | r in kinds :: Fits(r)
    }

    function Setter(): CorrectCpuset.Setter {
      CorrectCpuset.Setter(node.pools, node.numCPU, node.cores, Some(checkpoint))
    }

    ghost predicate Asks(kind: Kind) {
      exists r :: r in kinds && kinds[r] == kind
    }

    /** The kubelet merges the variables of all resources: where this one comes from. */
    ghost predicate Merged(env: Env, v: string) {
      if v in env then exists r :: r in answers && v in answers[r] && env[v] == answers[r][v]
      else forall r | r in answers :: v !in answers[r]
    }

    /** The CPU lists in the environment are those of the plugins' answers. */
    ghost predicate IsEnv(env: Env) {
      Merged(env, SHARED_CPUS) && Merged(env, EXCLUSIVE_CPUS) && Merged(env, CLOUDPHONE_CPUS) && Merged(env, NUMA_CPUS)
    }

    /** No cloudphone resource and at most one exclusive resource. */
    ghost predicate Ordinary() {
      && !Asks(CloudphoneKind)
      && forall a, b | a in kinds && b in kinds && kinds[a] == kinds[b] == ExclusiveKind :: a == b
    }
  }

  lemma PrintedDecodes(numbers: seq<nat>, numCPU: nat)
    requires numCPU > 0 && numbers != [] && forall d | d in numbers :: d < UINT32_RANGE
    ensures PluginSet(Printed(numbers), numCPU) != {}
  {
    DecodersAgree(numbers, numCPU);
    var cpus := set d | d in numbers :: d % numCPU;
    assert numbers[0] in numbers && numbers[0] % numCPU in cpus;
  }

  // ---- Names ----

  lemma {:induction false} NoSlashNoCut(s: string)
    requires '/' !in s
    ensures UntilSlash(s) == s
  {
    if s != "" {
      assert s[0] in s;
      NoSlashNoCut(s[1..]);
    }
  }

  lemma {:induction false} SecondAfterSlash(first: string, second: string)
    requires '/' !in first && '/' !in second
    ensures '/' in first + "/" + second && SecondPart(first + "/" + second) == second
  {
    var s := first + "/" + second;
    assert s[|first|] == '/';
    if first == "" {
      assert s[1..] == second;
      NoSlashNoCut(second);
    } else {
      assert s[0] in first;
      assert s[1..] == first[1..] + "/" + second;
      SecondAfterSlash(first[1..], second);
    }
  }

  lemma PrefixShift(base: string, prefix: string, rest: string)
    ensures HasPrefix(base + rest, base + prefix) <==> HasPrefix(rest, prefix)
  {
    var whole := base + rest;
    assert whole[|base|..] == rest;
    if HasPrefix(whole, base + prefix) {
      assert whole[..|base| + |prefix|] == base + prefix;
      assert rest[..|prefix|] == whole[|base|..|base| + |prefix|] == prefix;
    }
    if HasPrefix(rest, prefix) {
      assert whole[..|base| + |prefix|] == base + rest[..|prefix|];
    }
  }

  lemma PrefixesOfPool(pool: string)
    ensures HasPrefix(POOL_PREFIX + pool, SHARED_PREFIX) <==> HasPrefix(pool, SHARED_POOL_ID)
    ensures HasPrefix(POOL_PREFIX + pool, EXCLUSIVE_PREFIX) <==> HasPrefix(pool, EXCLUSIVE_POOL_ID)
    ensures HasPrefix(POOL_PREFIX + pool, CLOUDPHONE_PREFIX) <==> HasPrefix(pool, CLOUDPHONE_POOL_ID)
  {
    assert SHARED_PREFIX == POOL_PREFIX + SHARED_POOL_ID;
    assert EXCLUSIVE_PREFIX == POOL_PREFIX + EXCLUSIVE_POOL_ID;
    assert CLOUDPHONE_PREFIX == POOL_PREFIX + CLOUDPHONE_POOL_ID;
    PrefixShift(POOL_PREFIX, SHARED_POOL_ID, pool);
    PrefixShift(POOL_PREFIX, EXCLUSIVE_POOL_ID, pool);
    PrefixShift(POOL_PREFIX, CLOUDPHONE_POOL_ID, pool);
  }

  lemma NameOfPool(pool: string)
    requires '/' !in pool
    ensures '/' in POOL_PREFIX + pool && SecondPart(POOL_PREFIX + pool) == pool
    ensures HasPrefix(POOL_PREFIX + pool, SHARED_PREFIX) <==> HasPrefix(pool, SHARED_POOL_ID)
    ensures HasPrefix(POOL_PREFIX + pool, EXCLUSIVE_PREFIX) <==> HasPrefix(pool, EXCLUSIVE_POOL_ID)
    ensures HasPrefix(POOL_PREFIX + pool, CLOUDPHONE_PREFIX) <==> HasPrefix(pool, CLOUDPHONE_POOL_ID)
  {
    PrefixesOfPool(pool);
    assert POOL_PREFIX == RESOURCE_BASE_NAME + "/";
    assert '/' !in RESOURCE_BASE_NAME;
    SecondAfterSlash(RESOURCE_BASE_NAME, pool);
    assert POOL_PREFIX + pool == RESOURCE_BASE_NAME + "/" + pool;
  }

  lemma TypesDiffer()
    ensures SHARED_POOL_ID != EXCLUSIVE_POOL_ID && SHARED_POOL_ID != CLOUDPHONE_POOL_ID
    ensures EXCLUSIVE_POOL_ID != CLOUDPHONE_POOL_ID && SHARED_CPUS != EXCLUSIVE_CPUS
    ensures MIXED_POOLS != SHARED_POOL_ID && MIXED_POOLS != EXCLUSIVE_POOL_ID && MIXED_POOLS != CLOUDPHONE_POOL_ID
  {
    assert |SHARED_POOL_ID| == 6 && |EXCLUSIVE_POOL_ID| == 9 && |CLOUDPHONE_POOL_ID| == 10 && |MIXED_POOLS| == 16;
    assert |SHARED_CPUS| == 11 && |EXCLUSIVE_CPUS| == 14;
  }

  lemma SharedHasPrefix(name: string)
    ensures DeterminePoolType(name) == SHARED_POOL_ID <==> HasPrefix(name, SHARED_POOL_ID)
  {
    assert |SHARED_POOL_ID| == 6 && |EXCLUSIVE_POOL_ID| == 9 && |CLOUDPHONE_POOL_ID| == 10 && |DEFAULT_POOL_ID| == 7;
  }

  /** A pool resource names its pool, and its kind tells the type of the pool. */
  lemma ResourceNamesPool(q: Request, r: string)
    requires q.Sound(r)
    ensures '/' in r && SecondPart(r) == PoolOf(r)
    ensures q.kinds[r] == SharedKind ==> DeterminePoolType(PoolOf(r)) == SHARED_POOL_ID
    ensures q.kinds[r] == ExclusiveKind ==> DeterminePoolType(PoolOf(r)) == EXCLUSIVE_POOL_ID
    ensures q.kinds[r] == CloudphoneKind ==> DeterminePoolType(PoolOf(r)) == CLOUDPHONE_POOL_ID
  {
    assert r == POOL_PREFIX + PoolOf(r);
    NameOfPool(PoolOf(r));
  }

  /** A container with a shared resource: whatever shared pool the setter selects, its CPUs
      are those that the plugins know. */
  lemma SelectsShared(q: Request, r: string, shared: CPUSet)
    requires q.Sound(r) && q.kinds[r] == SharedKind
    ensures q.Setter().MayBeShared(shared) <==> shared == q.node.sharedCPUs
  {
    var pools := q.node.pools;
    ResourceNamesPool(q, r);
    forall a | a in pools ensures Matches(pools, SHARED_POOL_ID, a) <==> IsShared(pools, a) {
      SharedHasPrefix(a);
    }
    assert Matches(pools, SHARED_POOL_ID, PoolOf(r));
    assert Selects(pools, SHARED_POOL_ID, pools[PoolOf(r)]);
  }

  // ---- What the setter reads and what the plugin granted ----

  ghost function Decoded(q: Request, r: string): CPUSet
    requires q.Sound(r)
  {
    PluginSet(Printed(q.devices[r]), q.node.numCPU)
  }

  ghost function Granted(q: Request, r: string): CPUSet
    requires q.Sound(r)
  {
    q.node.PluginOf(PoolOf(r)).GrantedCPUs(Printed(q.devices[r]))
  }

  /** The setter decodes the CPUs that the plugin decoded. */
  lemma DecodesWhatWasGranted(q: Request, r: string)
    requires q.Sound(r)
    ensures q.Setter().AllocatedCpus(q.podUID, q.name, r) == Some(Decoded(q, r))
  {
    RecordsAllocated(q.checkpoint, q.podUID, q.name, r, Printed(q.devices[r]));
    SameMembersSameSet(AllocatedIds(q.checkpoint, q.podUID, q.name, r), Printed(q.devices[r]), q.node.numCPU);
    DecodersAgree(q.devices[r], q.node.numCPU);
  }

  /** What the setter makes of them when it selects this pool for the policy. */
  ghost function ExpandedBy(q: Request, r: string, pool: string): CPUSet
    requires q.Sound(r) && pool in q.node.pools
  {
    q.Setter().Expanded(q.node.pools[pool], Decoded(q, r))
  }

  lemma ExclusiveChoices(q: Request, r: string, exclusive: CPUSet)
    requires q.Sound(r) && q.kinds[r] == ExclusiveKind
    ensures '/' in r
    ensures q.Setter().MayExpand(r, Decoded(q, r), exclusive)
       <==> exists a :: Matches(q.node.pools, PoolOf(r), a) && exclusive == ExpandedBy(q, r, a)
  {
    ResourceNamesPool(q, r);
    var pools, pool := q.node.pools, PoolOf(r);
    assert Matches(pools, pool, pool);
    if q.Setter().MayExpand(r, Decoded(q, r), exclusive) {
      var selected :| Selects(pools, pool, selected) && exclusive == q.Setter().Expanded(selected, Decoded(q, r));
      var a :| Matches(pools, pool, a) && pools[a] == selected;
    }
    if a :| Matches(pools, pool, a) && exclusive == ExpandedBy(q, r, a) {
      assert Selects(pools, pool, pools[a]);
    }
  }

  /** For an exclusive resource alone: the setter is bound to want what the plugin granted
      exactly when the policies of the pools it may select agree with the pool's policy, or
      the CPUs have no other siblings. */
  lemma GrantSeenExactly(q: Request, r: string)
    requires q.Sound(r) && q.kinds[r] == ExclusiveKind && '/' in r
    ensures (forall e | q.Setter().MayExpand(r, Decoded(q, r), e) :: e == Granted(q, r))
       <==> PoliciesAgree(q, r) || AddSiblings(Decoded(q, r), q.node.cores) == Decoded(q, r)
  {
    GrantedIsExpanded(q, r);
    forall a | Matches(q.node.pools, PoolOf(r), a) ensures q.Setter().MayExpand(r, Decoded(q, r), ExpandedBy(q, r, a)) {
      ExclusiveChoices(q, r, ExpandedBy(q, r, a));
    }
    forall e | q.Setter().MayExpand(r, Decoded(q, r), e)
      ensures exists a :: Matches(q.node.pools, PoolOf(r), a) && e == ExpandedBy(q, r, a)
    {
      ExclusiveChoices(q, r, e);
    }
  }

  /** The plugin grants what the setter would make of them with the pool itself. */
  lemma GrantedIsExpanded(q: Request, r: string)
    requires q.Sound(r)
    ensures Granted(q, r) == ExpandedBy(q, r, PoolOf(r))
  {
  }

  lemma GrantsAtLeast(q: Request, r: string)
    requires q.Sound(r)
    ensures Decoded(q, r) <= Granted(q, r) && Decoded(q, r) != {} && Granted(q, r) != {}
  {
  }

  // ---- The variables and the amounts ----

  lemma AnswerByKind(q: Request, r: string)
    requires q.Sound(r)
    ensures q.kinds[r] == SharedKind ==> q.answers[r] == map[SHARED_CPUS := q.node.sharedCPUs]
    ensures q.kinds[r] == ExclusiveKind ==> q.answers[r] == map[EXCLUSIVE_CPUS := Granted(q, r)]
  {
    ResourceNamesPool(q, r);
    TypesDiffer();
  }

  /** A resource of a pool is recognised as one by every program. */
  lemma PoolResource(q: Request, r: string)
    requires q.Valid() && r in q.kinds
    ensures q.kinds[r] == KindByPrefix(r) == SetterKind(r)
    ensures q.kinds[r] != OtherKind <==> q.Sound(r)
    ensures r in q.answers <==> q.kinds[r] != OtherKind
  {
    assert q.Fits(r);
  }

  lemma PositiveSum(q: Request, prefix: string, kind: Kind)
    requires q.Valid() && kind != OtherKind
    requires forall r | r in q.kinds :: HasPrefix(r, prefix) <==> q.kinds[r] == kind
    ensures SumOf(q.limits, WithPrefix(q.limits.Keys, prefix)) > 0 <==> q.Asks(kind)
  {
    var keys := WithPrefix(q.limits.Keys, prefix);
    forall k | k in keys ensures q.limits[k] > 0 && q.kinds[k] == kind {
      PoolResource(q, k);
    }
    SumPositive(q.limits, keys);
    if r :| r in q.kinds && q.kinds[r] == kind {
      PoolResource(q, r);
      assert r in keys;
    }
    if r :| r in keys {
      assert r in q.kinds;
    }
  }

  /** A resource name has at most one of the three prefixes. */
  lemma OnePrefix(r: string)
    ensures HasPrefix(r, EXCLUSIVE_PREFIX) ==> !HasPrefix(r, SHARED_PREFIX)
    ensures HasPrefix(r, CLOUDPHONE_PREFIX) ==> !HasPrefix(r, SHARED_PREFIX) && !HasPrefix(r, EXCLUSIVE_PREFIX)
  {
    assert SHARED_PREFIX[12] == 's' && EXCLUSIVE_PREFIX[12] == 'e' && CLOUDPHONE_PREFIX[12] == 'c';
    if |r| > 12 {
      assert HasPrefix(r, SHARED_PREFIX) ==> r[12] == 's';
      assert HasPrefix(r, EXCLUSIVE_PREFIX) ==> r[12] == 'e';
      assert HasPrefix(r, CLOUDPHONE_PREFIX) ==> r[12] == 'c';
    }
  }

  lemma AmountsPositive(q: Request, requests: Requests)
    requires q.Valid() && SumsUp(requests, q.limits, q.limits.Keys)
    ensures requests.shared > 0 <==> q.Asks(SharedKind)
    ensures requests.exclusive > 0 <==> q.Asks(ExclusiveKind)
    ensures requests.cloudphone > 0 <==> q.Asks(CloudphoneKind)
  {
    forall r | r in q.kinds
      ensures HasPrefix(r, SHARED_PREFIX) <==> q.kinds[r] == SharedKind
      ensures HasPrefix(r, EXCLUSIVE_PREFIX) <==> q.kinds[r] == ExclusiveKind
      ensures HasPrefix(r, CLOUDPHONE_PREFIX) <==> q.kinds[r] == CloudphoneKind
    {
      PoolResource(q, r);
      OnePrefix(r);
    }
    PositiveSum(q, SHARED_PREFIX, SharedKind);
    PositiveSum(q, EXCLUSIVE_PREFIX, ExclusiveKind);
    PositiveSum(q, CLOUDPHONE_PREFIX, CloudphoneKind);
  }

  lemma OrdinaryAnswer(q: Request, r: string)
    requires q.Valid() && q.Ordinary() && r in q.answers
    ensures r in q.kinds && q.Sound(r)
    ensures SHARED_CPUS in q.answers[r] <==> q.kinds[r] == SharedKind
    ensures EXCLUSIVE_CPUS in q.answers[r] <==> q.kinds[r] == ExclusiveKind
    ensures q.kinds[r] == SharedKind ==> q.answers[r][SHARED_CPUS] == q.node.sharedCPUs
    ensures q.kinds[r] == ExclusiveKind ==> q.answers[r][EXCLUSIVE_CPUS] == Granted(q, r)
  {
    PoolResource(q, r);
    AnswerByKind(q, r);
    TypesDiffer();
  }

  /** SHARED_CPUS holds the shared pool exactly when one is asked for. */
  lemma SharedVariable(q: Request, env: Env)
    requires q.Valid() && q.IsEnv(env) && q.Ordinary()
    ensures PS.Variable(env, SHARED_CPUS) == if q.Asks(SharedKind) then q.node.sharedCPUs else {}
  {
    forall r | r in q.answers
      ensures r in q.kinds && (SHARED_CPUS in q.answers[r] <==> q.kinds[r] == SharedKind)
      ensures q.kinds[r] == SharedKind ==> q.answers[r][SHARED_CPUS] == q.node.sharedCPUs
    {
      OrdinaryAnswer(q, r);
    }
    if r :| r in q.kinds && q.kinds[r] == SharedKind {
      PoolResource(q, r);
    }
    assert q.Merged(env, SHARED_CPUS);
  }

  /** EXCLUSIVE_CPUS holds the CPUs granted for the exclusive resource, if there is one. */
  lemma ExclusiveVariable(q: Request, env: Env)
    requires q.Valid() && q.IsEnv(env) && q.Ordinary()
    ensures !q.Asks(ExclusiveKind) ==> PS.Variable(env, EXCLUSIVE_CPUS) == {}
    ensures forall r | q.Sound(r) && q.kinds[r] == ExclusiveKind :: PS.Variable(env, EXCLUSIVE_CPUS) == Granted(q, r)
  {
    forall r | r in q.answers
      ensures r in q.kinds && q.Sound(r) && (EXCLUSIVE_CPUS in q.answers[r] <==> q.kinds[r] == ExclusiveKind)
      ensures q.kinds[r] == ExclusiveKind ==> q.answers[r][EXCLUSIVE_CPUS] == Granted(q, r)
    {
      OrdinaryAnswer(q, r);
    }
    assert q.Merged(env, EXCLUSIVE_CPUS);
  }

  // ---- Exclusive and shared containers ----

  function AsContainer(q: Request): Container {
    Container(q.Setter(), q.podUID, q.name, q.requested)
  }

  lemma ContainerKinds(q: Request)
    requires q.Valid()
    ensures AsContainer(q).Valid()
    ensures forall r | r in q.kinds :: SetterKind(r) == q.kinds[r] && (q.kinds[r] != OtherKind ==> r in q.requested && '/' in r)
    ensures forall r :: NamesExclusive(q.requested, r) <==> r in q.kinds && q.kinds[r] == ExclusiveKind
    ensures forall r :: NamesShared(q.requested, r) <==> r in q.kinds && q.kinds[r] == SharedKind
  {
    forall r | r in q.kinds
      ensures SetterKind(r) == q.kinds[r] && (q.kinds[r] != OtherKind ==> r in q.requested && '/' in r)
    {
      PoolResource(q, r);
      if q.kinds[r] != OtherKind {
        ResourceNamesPool(q, r);
      }
    }
  }

  /** The CPUs of the shared pool, if the container asks for one. */
  ghost function SharedPart(q: Request): CPUSet {
    if q.Asks(SharedKind) then q.node.sharedCPUs else {}
  }

  lemma SharedSum(q: Request, shared: CPUSet)
    requires q.Valid()
    ensures MayShare(AsContainer(q), q.requested, shared) <==> shared == SharedPart(q)
  {
    ContainerKinds(q);
    if r :| r in q.kinds && q.kinds[r] == SharedKind {
      PoolResource(q, r);
      SelectsShared(q, r, shared);
      assert NamesShared(q.requested, r);
    }
  }

  /** Exclusive CPUs that the setter may end up with. */
  ghost predicate MayGet(q: Request, exclusive: CPUSet)
    requires q.Valid()
  {
    if q.Asks(ExclusiveKind)
    then exists r, a :: r in q.kinds && q.kinds[r] == ExclusiveKind && q.Sound(r)
                        && Matches(q.node.pools, PoolOf(r), a) && exclusive == ExpandedBy(q, r, a)
    else exclusive == {}
  }

  lemma ExclusiveSum(q: Request, exclusive: CPUSet)
    requires q.Valid() && q.Ordinary() && AsContainer(q).Valid()
    ensures MayHaveExclusive(AsContainer(q), q.requested, exclusive) <==> MayGet(q, exclusive)
  {
    var c := AsContainer(q);
    ContainerKinds(q);
    if r :| r in q.kinds && q.kinds[r] == ExclusiveKind {
      PoolResource(q, r);
      DecodesWhatWasGranted(q, r);
      ExclusiveChoices(q, r, exclusive);
      assert NamesExclusive(q.requested, r);
      assert OwnsFrom(c, q.requested, r, exclusive) <==> c.setter.MayExpand(r, Decoded(q, r), exclusive);
    }
  }

  ghost predicate MayWant(q: Request, cgroup: CPUSet)
    requires q.Valid()
  {
    exists exclusive :: MayGet(q, exclusive) && cgroup == SharedPart(q) + exclusive
  }

  /** What the setter may want, in terms of the pools. */
  lemma OrdinaryChoices(q: Request, decision: Decision)
    requires q.Valid() && q.Ordinary() && (q.Asks(ExclusiveKind) || q.Asks(SharedKind))
    ensures AsContainer(q).May(decision) <==>
      decision.Decided? && decision.config == decision.cgroup && MayWant(q, decision.cgroup)
  {
    var c := AsContainer(q);
    ContainerKinds(q);
    forall r | NamesExclusive(q.requested, r) ensures c.Allocated(r).Some? {
      PoolResource(q, r);
      DecodesWhatWasGranted(q, r);
    }
    OrdinaryDecision(c, decision);
    if decision.Decided? {
      OrdinaryResult(q, decision.cgroup);
    }
  }

  lemma OrdinaryResult(q: Request, cgroup: CPUSet)
    requires q.Valid() && q.Ordinary() && (q.Asks(ExclusiveKind) || q.Asks(SharedKind)) && AsContainer(q).Valid()
    ensures MayResult(AsContainer(q), cgroup) <==> MayWant(q, cgroup)
  {
    var c := AsContainer(q);
    if MayResult(c, cgroup) {
      var shared, exclusive :| MaySum(c, shared, exclusive, cgroup);
      SharedSum(q, shared);
      ExclusiveSum(q, exclusive);
      SomethingThere(q, exclusive);
    }
    if exclusive :| MayGet(q, exclusive) && cgroup == SharedPart(q) + exclusive {
      SharedSum(q, SharedPart(q));
      ExclusiveSum(q, exclusive);
      SomethingThere(q, exclusive);
      assert MaySum(c, SharedPart(q), exclusive, cgroup);
    }
  }

  lemma SomethingThere(q: Request, exclusive: CPUSet)
    requires q.Valid() && (q.Asks(ExclusiveKind) || q.Asks(SharedKind)) && MayGet(q, exclusive)
    ensures SharedPart(q) != {} || exclusive != {}
    ensures SharedPart(q) + exclusive != {}
  {
    if r :| r in q.kinds && q.kinds[r] == SharedKind {
      PoolResource(q, r);
    }
    if q.Asks(ExclusiveKind) {
      var r, a :| r in q.kinds && q.kinds[r] == ExclusiveKind && q.Sound(r)
                  && Matches(q.node.pools, PoolOf(r), a) && exclusive == ExpandedBy(q, r, a);
      GrantsAtLeast(q, r);
    }
  }

  /** The awaited set by kind of request. */
  lemma AwaitedByKind(requests: Requests, env: Env)
    ensures var exclusive, shared := PS.Variable(env, EXCLUSIVE_CPUS), PS.Variable(env, SHARED_CPUS);
      var awaited := PS.Awaited(CpuPools(requests), env);
      && (requests.exclusive > 0 && requests.shared > 0 && exclusive != {} && shared != {} ==>
            awaited == Some(exclusive + shared))
      && (requests.exclusive > 0 && requests.shared <= 0 && exclusive != {} ==> awaited == Some(exclusive))
      && (requests.exclusive <= 0 && requests.cloudphone <= 0 && requests.shared > 0 && shared != {} ==>
            awaited == Some(shared))
      && (requests.exclusive <= 0 && requests.cloudphone > 0
          && PS.Variable(env, CLOUDPHONE_CPUS) != {} && PS.Variable(env, NUMA_CPUS) != {}
          ==> awaited == Some(PS.Variable(env, NUMA_CPUS)))
  {
    TypesDiffer();
  }

  lemma AskedIsThere(q: Request, env: Env)
    requires q.Valid() && q.Ordinary() && q.IsEnv(env)
    ensures q.Asks(ExclusiveKind) <==> PS.Variable(env, EXCLUSIVE_CPUS) != {}
    ensures q.Asks(SharedKind) <==> PS.Variable(env, SHARED_CPUS) != {}
  {
    ExclusiveVariable(q, env);
    SharedVariable(q, env);
    if r :| r in q.kinds && q.kinds[r] == ExclusiveKind {
      PoolResource(q, r);
      GrantsAtLeast(q, r);
    }
    if r :| r in q.kinds && q.kinds[r] == SharedKind {
      PoolResource(q, r);
    }
  }

  lemma WaitsForBoth(requests: Requests, env: Env, cpus: CPUSet)
    requires var exclusive, shared := PS.Variable(env, EXCLUSIVE_CPUS), PS.Variable(env, SHARED_CPUS);
      && (requests.exclusive > 0 <==> exclusive != {})
      && (requests.shared > 0 <==> shared != {})
      && requests.cloudphone <= 0 && cpus == shared + exclusive && cpus != {}
    ensures PS.Awaited(CpuPools(requests), env) == Some(cpus)
  {
    AwaitedByKind(requests, env);
    var exclusive, shared := PS.Variable(env, EXCLUSIVE_CPUS), PS.Variable(env, SHARED_CPUS);
    assert cpus == exclusive + shared;
    assert exclusive == {} ==> cpus == shared;
    assert shared == {} ==> cpus == exclusive;
  }

  /** Every pool that SelectPool may answer for the resource has the policy of its pool. */
  ghost predicate PoliciesAgree(q: Request, r: string)
    requires q.Sound(r)
  {
    forall a | Matches(q.node.pools, PoolOf(r), a) :: IsMulti(q.node.pools[a]) == IsMulti(q.node.pools[PoolOf(r)])
  }

  /** The siblings of the exclusive CPUs are among the CPUs of the container anyway. */
  ghost predicate SiblingsAddNothing(q: Request, r: string)
    requires q.Sound(r)
  {
    AddSiblings(Decoded(q, r), q.node.cores) <= Decoded(q, r) + SharedPart(q)
  }

  ghost predicate Agreed(q: Request)
    requires q.Valid()
  {
    forall r | r in q.kinds && q.kinds[r] == ExclusiveKind && q.Sound(r) :: PoliciesAgree(q, r) || SiblingsAddNothing(q, r)
  }

  /** The exclusive CPUs that the plugin granted, if the container asks for some. */
  ghost function GrantedPart(q: Request): CPUSet
    requires q.Valid()
  {
    if r :| r in q.kinds && q.kinds[r] == ExclusiveKind && q.Sound(r) then Granted(q, r) else {}
  }

  lemma GrantedPartOf(q: Request, r: string)
    requires q.Valid() && q.Ordinary() && r in q.kinds && q.kinds[r] == ExclusiveKind
    ensures q.Sound(r) && GrantedPart(q) == Granted(q, r)
  {
    PoolResource(q, r);
  }

  lemma GrantIsPossible(q: Request)
    requires q.Valid() && q.Ordinary()
    ensures MayGet(q, GrantedPart(q))
  {
    if r :| r in q.kinds && q.kinds[r] == ExclusiveKind {
      GrantedPartOf(q, r);
      GrantedIsExpanded(q, r);
      assert Matches(q.node.pools, PoolOf(r), PoolOf(r));
    }
  }

  /** Under every selection the sum is that with the grant exactly when the policies agree or
      the siblings add nothing. */
  lemma SameSumsExactly(q: Request)
    requires q.Valid() && q.Ordinary()
    ensures Agreed(q) <==> forall cgroup | MayWant(q, cgroup) :: cgroup == SharedPart(q) + GrantedPart(q)
  {
    if r :| r in q.kinds && q.kinds[r] == ExclusiveKind {
      GrantedPartOf(q, r);
      if PoliciesAgree(q, r) || SiblingsAddNothing(q, r) {
        forall cgroup | MayWant(q, cgroup) ensures cgroup == SharedPart(q) + GrantedPart(q) {
          var e :| MayGet(q, e) && cgroup == SharedPart(q) + e;
          SameSum(q, r, e);
        }
      } else {
        OtherSum(q, r);
      }
    }
  }

  lemma SameSum(q: Request, r: string, e: CPUSet)
    requires q.Valid() && q.Ordinary() && r in q.kinds && q.kinds[r] == ExclusiveKind && q.Sound(r) && MayGet(q, e)
    requires PoliciesAgree(q, r) || SiblingsAddNothing(q, r)
    ensures SharedPart(q) + e == SharedPart(q) + Granted(q, r)
  {
    var x, a :| x in q.kinds && q.kinds[x] == ExclusiveKind && q.Sound(x)
                && Matches(q.node.pools, PoolOf(x), a) && e == ExpandedBy(q, x, a);
    assert x == r;
    GrantedIsExpanded(q, r);
    Expansions(Decoded(q, r), AddSiblings(Decoded(q, r), q.node.cores), SharedPart(q));
  }

  lemma ByPolicy(q: Request, r: string, a: string)
    requires q.Sound(r) && a in q.node.pools
    ensures ExpandedBy(q, r, a) == if IsMulti(q.node.pools[a]) then AddSiblings(Decoded(q, r), q.node.cores) else Decoded(q, r)
  {
  }

  lemma OtherSum(q: Request, r: string)
    requires q.Valid() && q.Ordinary() && r in q.kinds && q.kinds[r] == ExclusiveKind && q.Sound(r)
    requires !PoliciesAgree(q, r) && !SiblingsAddNothing(q, r)
    ensures exists cgroup :: MayWant(q, cgroup) && cgroup != SharedPart(q) + Granted(q, r)
  {
    var a :| Matches(q.node.pools, PoolOf(r), a) && IsMulti(q.node.pools[a]) != IsMulti(q.node.pools[PoolOf(r)]);
    WantsExpanded(q, r, a);
    OtherExpansion(q, r, a);
  }

  lemma OtherExpansion(q: Request, r: string, a: string)
    requires q.Sound(r) && a in q.node.pools && IsMulti(q.node.pools[a]) != IsMulti(q.node.pools[PoolOf(r)])
    requires !SiblingsAddNothing(q, r)
    ensures SharedPart(q) + ExpandedBy(q, r, a) != SharedPart(q) + Granted(q, r)
  {
    ByPolicy(q, r, a);
    ByPolicy(q, r, PoolOf(r));
    GrantedIsExpanded(q, r);
    Expansions(Decoded(q, r), AddSiblings(Decoded(q, r), q.node.cores), SharedPart(q));
  }

  lemma WantsExpanded(q: Request, r: string, a: string)
    requires q.Valid() && r in q.kinds && q.kinds[r] == ExclusiveKind && q.Sound(r) && Matches(q.node.pools, PoolOf(r), a)
    ensures MayWant(q, SharedPart(q) + ExpandedBy(q, r, a))
  {
    assert MayGet(q, ExpandedBy(q, r, a));
  }

  lemma Expansions(cpus: CPUSet, expanded: CPUSet, shared: CPUSet)
    requires cpus <= expanded
    ensures shared + cpus == shared + expanded <==> expanded <= cpus + shared
  {
    assert expanded <= shared + expanded;
  }

  lemma VariablesAreParts(q: Request, env: Env)
    requires q.Valid() && q.Ordinary() && q.IsEnv(env)
    ensures PS.Variable(env, SHARED_CPUS) == SharedPart(q) && PS.Variable(env, EXCLUSIVE_CPUS) == GrantedPart(q)
  {
    SharedVariable(q, env);
    ExclusiveVariable(q, env);
    if r :| r in q.kinds && q.kinds[r] == ExclusiveKind {
      GrantedPartOf(q, r);
    }
  }

  lemma WaitsForSum(q: Request, requests: Requests, env: Env)
    requires q.Valid() && q.Ordinary() && (q.Asks(ExclusiveKind) || q.Asks(SharedKind))
    requires SumsUp(requests, q.limits, q.limits.Keys) && q.IsEnv(env)
    ensures PS.Awaited(CpuPools(requests), env) == Some(SharedPart(q) + GrantedPart(q))
    ensures SharedPart(q) + GrantedPart(q) != {}
  {
    AmountsPositive(q, requests);
    VariablesAreParts(q, env);
    AskedIsThere(q, env);
    GrantIsPossible(q);
    SomethingThere(q, GrantedPart(q));
    WaitsForBoth(requests, env, SharedPart(q) + GrantedPart(q));
  }

  lemma HandedByKind(requests: Requests, env: Env)
    requires var exclusive, shared := PS.Variable(env, EXCLUSIVE_CPUS), PS.Variable(env, SHARED_CPUS);
      && (requests.exclusive > 0 <==> exclusive != {})
      && (requests.shared > 0 <==> shared != {})
      && requests.cloudphone <= 0 && (exclusive != {} || shared != {})
    ensures PS.Handed(CpuPools(requests), env)
         == PS.Cpus(List(PS.Variable(env, EXCLUSIVE_CPUS)), List(PS.Variable(env, SHARED_CPUS)))
  {
    TypesDiffer();
  }

  /** The lists handed to a released starter are the grant and the shared pool. */
  lemma HandedParts(q: Request, requests: Requests, env: Env)
    requires q.Valid() && q.Ordinary() && (q.Asks(ExclusiveKind) || q.Asks(SharedKind))
    requires SumsUp(requests, q.limits, q.limits.Keys) && q.IsEnv(env)
    ensures PS.Handed(CpuPools(requests), env) == PS.Cpus(List(GrantedPart(q)), List(SharedPart(q)))
  {
    AmountsPositive(q, requests);
    AskedIsThere(q, env);
    HandedByKind(requests, env);
    VariablesAreParts(q, env);
  }

  ghost predicate IsAwaited(requests: Requests, env: Env, decision: Decision) {
    decision.Decided? && PS.Awaited(CpuPools(requests), env) == Some(decision.cgroup)
  }

  /** Exclusive, shared, or both, beside any other resources and on any node: what the
      starter waits for is one of the sets that the setter may want. The setter is bound to
      want it, in whatever order it visits requests and pools, exactly when the pools whose
      names begin with the exclusive pool's name have its policy, or siblings add nothing. */
  lemma OrdinaryHandshake(q: Request, requests: Requests, env: Env)
    requires q.Valid() && q.Ordinary() && (q.Asks(ExclusiveKind) || q.Asks(SharedKind))
    requires SumsUp(requests, q.limits, q.limits.Keys) && q.IsEnv(env)
    ensures exists d :: AsContainer(q).May(d) && IsAwaited(requests, env, d) && d.cgroup != {}
    ensures Agreed(q) <==> forall d | AsContainer(q).May(d) :: IsAwaited(requests, env, d)
  {
    var awaited := SharedPart(q) + GrantedPart(q);
    WaitsForSum(q, requests, env);
    GrantIsPossible(q);
    OrdinaryChoices(q, Decided(awaited, awaited));
    SameSumsExactly(q);
    BoundTo(q, requests, env, awaited);
  }

  lemma BoundTo(q: Request, requests: Requests, env: Env, awaited: CPUSet)
    requires q.Valid() && q.Ordinary() && (q.Asks(ExclusiveKind) || q.Asks(SharedKind))
    requires PS.Awaited(CpuPools(requests), env) == Some(awaited)
    ensures (forall d | AsContainer(q).May(d) :: IsAwaited(requests, env, d)) <==> forall cgroup | MayWant(q, cgroup) :: cgroup == awaited
  {
    forall d | AsContainer(q).May(d) ensures d.Decided? && MayWant(q, d.cgroup) {
      OrdinaryChoices(q, d);
    }
    forall cgroup | MayWant(q, cgroup) ensures AsContainer(q).May(Decided(cgroup, cgroup)) {
      OrdinaryChoices(q, Decided(cgroup, cgroup));
    }
  }

  // ---- Cloudphone containers ----

  /** The container's only pool resource. */
  ghost predicate OnlyPoolResource(q: Request, r: string) {
    forall x | x in q.kinds :: q.kinds[x] != OtherKind <==> x == r
  }

  ghost predicate IsCloudphone(q: Request, r: string) {
    q.Sound(r) && q.kinds[r] == CloudphoneKind
  }

  /** The CPUs that the plugin puts into NUMA_CPUS. */
  ghost function NumaSet(q: Request, r: string): CPUSet
    requires IsCloudphone(q, r)
  {
    NodeCPUs(q.node.pools[PoolOf(r)].coreMap, NodeOf(q.node.cloudphone, List(Granted(q, r))[0]))
  }

  /** The cores that the setter gathers when it selects these two pools. */
  ghost function CoresBy(q: Request, r: string, a: string, b: string): CPUSet
    requires IsCloudphone(q, r) && a in q.node.pools && b in q.node.pools
  {
    CorrectCpuset.Setter.CoresOnNode(q.node.pools[b].coreMap, NodeOf(q.node.pools[a].coreMap, List(Decoded(q, r))[0]))
  }

  /** Whatever pools are selected, their core maps lead to the plugin's set. */
  ghost predicate CoresAgree(q: Request, r: string)
    requires IsCloudphone(q, r)
  {
    forall a, b | Matches(q.node.pools, PoolOf(r), a) && Matches(q.node.pools, PoolOf(r), b) :: CoresBy(q, r, a, b) == NumaSet(q, r)
  }

  ghost predicate MayGather(q: Request, r: string, cgroup: CPUSet)
    requires IsCloudphone(q, r)
  {
    exists a, b :: Matches(q.node.pools, PoolOf(r), a) && Matches(q.node.pools, PoolOf(r), b) && cgroup == CoresBy(q, r, a, b)
  }

  lemma CoresGathered(q: Request, r: string, first: Pool, second: Pool, cgroup: CPUSet)
    requires IsCloudphone(q, r) && Decoded(q, r) != {}
    requires Selects(q.node.pools, PoolOf(r), first) && Selects(q.node.pools, PoolOf(r), second)
    requires cgroup == CorrectCpuset.Setter.CoresOnNode(second.coreMap, NodeOf(first.coreMap, List(Decoded(q, r))[0]))
    ensures MayGather(q, r, cgroup)
  {
    var pools, pool := q.node.pools, PoolOf(r);
    assert Matches(pools, pool, pool);
    var a :| Matches(pools, pool, a) && pools[a] == first;
    var b :| Matches(pools, pool, b) && pools[b] == second;
    assert cgroup == CoresBy(q, r, a, b);
  }

  lemma CoreChoices(q: Request, r: string, cgroup: CPUSet)
    requires IsCloudphone(q, r)
    ensures '/' in r && Decoded(q, r) != {}
    ensures q.Setter().MayBeCores(r, Decoded(q, r), cgroup) <==> MayGather(q, r, cgroup)
  {
    ResourceNamesPool(q, r);
    if q.Setter().MayBeCores(r, Decoded(q, r), cgroup) {
      var first, second :| Selects(q.node.pools, PoolOf(r), first) && Selects(q.node.pools, PoolOf(r), second)
        && cgroup == CorrectCpuset.Setter.CoresOnNode(second.coreMap, NodeOf(first.coreMap, List(Decoded(q, r))[0]));
      CoresGathered(q, r, first, second, cgroup);
    }
    if MayGather(q, r, cgroup) {
      GatheredCores(q, r, cgroup);
    }
  }

  lemma GatheredCores(q: Request, r: string, cgroup: CPUSet)
    requires IsCloudphone(q, r) && '/' in r && SecondPart(r) == PoolOf(r) && Decoded(q, r) != {} && MayGather(q, r, cgroup)
    ensures q.Setter().MayBeCores(r, Decoded(q, r), cgroup)
  {
    var pools, pool := q.node.pools, PoolOf(r);
    var a, b :| Matches(pools, pool, a) && Matches(pools, pool, b) && cgroup == CoresBy(q, r, a, b);
    assert Selects(pools, pool, pools[a]) && Selects(pools, pool, pools[b]);
  }

  lemma CloudphoneChoices(q: Request, r: string, decision: Decision)
    requires q.Valid() && IsCloudphone(q, r) && OnlyPoolResource(q, r)
    ensures AsContainer(q).May(decision) <==>
      decision.Decided? && decision.config == Decoded(q, r) && MayGather(q, r, decision.cgroup)
  {
    ContainerKinds(q);
    CloudphoneAlone(AsContainer(q), r, decision);
    DecodesWhatWasGranted(q, r);
    if decision.Decided? {
      CoreChoices(q, r, decision.cgroup);
    } else {
      CoreChoices(q, r, {});
    }
  }

  lemma CloudphoneAnswer(q: Request, r: string)
    requires IsCloudphone(q, r)
    ensures q.answers[r] == map[CLOUDPHONE_CPUS := Granted(q, r)][NUMA_CPUS := NumaSet(q, r)]
  {
    ResourceNamesPool(q, r);
    TypesDiffer();
  }

  lemma CloudphoneVariables(q: Request, env: Env, r: string)
    requires q.Valid() && IsCloudphone(q, r) && OnlyPoolResource(q, r) && q.IsEnv(env)
    ensures PS.Variable(env, CLOUDPHONE_CPUS) == Granted(q, r)
    ensures PS.Variable(env, NUMA_CPUS) == NumaSet(q, r)
  {
    CloudphoneAnswer(q, r);
    assert |CLOUDPHONE_CPUS| == 15 && |NUMA_CPUS| == 9;
    forall x | x in q.answers ensures x == r {
      PoolResource(q, x);
    }
    assert q.Merged(env, CLOUDPHONE_CPUS) && q.Merged(env, NUMA_CPUS);
    assert r in q.answers;
  }

  lemma CloudphoneWaits(q: Request, requests: Requests, env: Env, r: string)
    requires q.Valid() && IsCloudphone(q, r) && OnlyPoolResource(q, r)
    requires SumsUp(requests, q.limits, q.limits.Keys) && q.IsEnv(env)
    ensures PS.Awaited(CpuPools(requests), env) == if NumaSet(q, r) == {} then None else Some(NumaSet(q, r))
  {
    CloudphoneVariables(q, env, r);
    AmountsPositive(q, requests);
    AwaitedByKind(requests, env);
    GrantsAtLeast(q, r);
    assert r in q.kinds;
  }

  /** Cloudphone, beside any resources that are no pool's: the setter is bound to want what
      the starter waits for, in whatever order it visits requests and pools, exactly when
      the plugin's set is not empty and the core maps lead to it. */
  lemma CloudphoneHandshake(q: Request, requests: Requests, env: Env, r: string)
    requires q.Valid() && IsCloudphone(q, r) && OnlyPoolResource(q, r)
    requires SumsUp(requests, q.limits, q.limits.Keys) && q.IsEnv(env)
    ensures NumaSet(q, r) != {} && CoresAgree(q, r) <==> forall d | AsContainer(q).May(d) :: IsAwaited(requests, env, d)
  {
    CloudphoneWaits(q, requests, env, r);
    OneGathered(q, r);
    CloudphoneBound(q, requests, env, r);
  }

  lemma CloudphoneBound(q: Request, requests: Requests, env: Env, r: string)
    requires q.Valid() && IsCloudphone(q, r) && OnlyPoolResource(q, r)
    ensures (forall d | AsContainer(q).May(d) :: IsAwaited(requests, env, d))
       <==> forall cgroup | MayGather(q, r, cgroup) :: PS.Awaited(CpuPools(requests), env) == Some(cgroup)
  {
    forall d | AsContainer(q).May(d) ensures d.Decided? && MayGather(q, r, d.cgroup) {
      CloudphoneChoices(q, r, d);
    }
    forall cgroup | MayGather(q, r, cgroup) ensures AsContainer(q).May(Decided(Decoded(q, r), cgroup)) {
      CloudphoneChoices(q, r, Decided(Decoded(q, r), cgroup));
    }
  }

  lemma OneGathered(q: Request, r: string)
    requires IsCloudphone(q, r)
    ensures CoresAgree(q, r) <==> forall cgroup | MayGather(q, r, cgroup) :: cgroup == NumaSet(q, r)
    ensures exists cgroup :: MayGather(q, r, cgroup)
  {
    forall a, b | Matches(q.node.pools, PoolOf(r), a) && Matches(q.node.pools, PoolOf(r), b)
      ensures MayGather(q, r, CoresBy(q, r, a, b))
    {
    }
    assert Matches(q.node.pools, PoolOf(r), PoolOf(r));
    assert MayGather(q, r, CoresBy(q, r, PoolOf(r), PoolOf(r)));
  }

  /** A documented cloudphone pool: it hands out single threads, its core map is keyed by
      core and covers the CPUs handed out, the plugin's topology puts those cores on the
      same nodes, and pools whose names begin alike have the same core map. */
  ghost predicate CloudphoneReady(q: Request, r: string) {
    && IsCloudphone(q, r)
    && var pool := q.node.pools[PoolOf(r)];
       && pool.htPolicy != MULTI_THREAD_POLICY
       && (forall k | k in pool.coreMap :: pool.coreMap[k].core == k)
       && (forall k | k in pool.coreMap :: NodeOf(q.node.cloudphone, k) == pool.coreMap[k].node)
       && (forall c | c in Decoded(q, r) :: c in pool.coreMap)
       && (forall a | Matches(q.node.pools, PoolOf(r), a) :: q.node.pools[a].coreMap == pool.coreMap)
  }

  /** The cores of the pool on the node of the container's first CPU. */
  ghost function NodeSet(q: Request, r: string): CPUSet
    requires CloudphoneReady(q, r)
  {
    var coreMap := q.node.pools[PoolOf(r)].coreMap;
    NodeCPUs(coreMap, coreMap[List(Decoded(q, r))[0]].node)
  }

  /** With such a pool the two sets are those cores. */
  lemma ReadyAgrees(q: Request, r: string)
    requires q.Valid() && CloudphoneReady(q, r)
    ensures NumaSet(q, r) == NodeSet(q, r) != {} && CoresAgree(q, r)
  {
    var coreMap := q.node.pools[PoolOf(r)].coreMap;
    var first := List(Decoded(q, r))[0];
    assert first in Decoded(q, r) && first in NodeSet(q, r);
    KeyedByCore(coreMap, coreMap[first].node);
  }

  /** What the setter writes for two cloudphone containers of one pool: the same set when
      their first CPUs are on the same node, whatever devices they hold, and sets without a
      common CPU otherwise. */
  lemma CloudphonesPerNode(q: Request, r: string, p: Request, t: string)
    requires CloudphoneReady(q, r) && CloudphoneReady(p, t) && p.node == q.node && PoolOf(r) == PoolOf(t)
    ensures var coreMap := q.node.pools[PoolOf(r)].coreMap;
      if coreMap[List(Decoded(q, r))[0]].node == coreMap[List(Decoded(p, t))[0]].node
      then NodeSet(q, r) == NodeSet(p, t) else NodeSet(q, r) !! NodeSet(p, t)
  {
  }

  lemma KeyedByCore(coreMap: map<nat, CoreTopology>, node: int)
    requires forall k | k in coreMap :: coreMap[k].core == k
    ensures CorrectCpuset.Setter.CoresOnNode(coreMap, node) == NodeCPUs(coreMap, node)
  {
  }
}
