/** Containers on which the programs agree and containers on which they do not: on any node
    and on one with the shipped sample configuration. */
module HandshakeExample {
  import opened CpuSets
  import opened DeviceIds
  import opened DevicePlugin
  import opened Checkpoint
  import opened CorrectCpuset
  import opened CpusetOrder
  import opened GoText
  import opened Handshake
  import opened Pools
  import opened PoolRequests
  import opened SampleConfig

  // ---- Requests on any node ----

  /** A resource of one of the node's pools that all programs classify alike. */
  ghost predicate IsUsable(node: Node, r: string) {
    && node.numCPU > 0 && HasPrefix(r, POOL_PREFIX) && PoolOf(r) in node.pools && '/' !in PoolOf(r)
    && KindByPrefix(r) == SetterKind(r) && KindByPrefix(r) != OtherKind
  }

  /** A resource that no program takes for a pool's. */
  predicate IsNoPools(r: string) {
    KindByPrefix(r) == SetterKind(r) == OtherKind
  }

  type Device = d: nat | d < UINT32_RANGE

  ghost function Answer(node: Node, r: string, device: Device): Env
    requires IsUsable(node, r)
  {
    PrintedDecodes([device], node.numCPU);
    node.PluginOf(PoolOf(r)).AllocatedEnv(Printed([device]))
  }

  /** A checkpoint in which every device of the container stands between those of another
      container of the pod and of a container of the same name in another pod. */
  function Kubelet(resources: seq<string>, m: nat, ids: seq<string>): seq<Entry>
    requires m <= |resources|
  {
    if m == 0 then [] else
      Kubelet(resources, m - 1, ids)
      + [Entry("pod", "sidecar", resources[m - 1], ["1"]), Entry("pod", "container", resources[m - 1], ids),
         Entry("twin", "container", resources[m - 1], ["2"])]
  }

  lemma {:induction false} KubeletEntries(resources: seq<string>, m: nat, ids: seq<string>, e: Entry)
    requires m <= |resources|
    ensures e.podUID == "pod" && e.containerName == "container" ==>
      (e in Kubelet(resources, m, ids) <==> e.deviceIDs == ids && e.resourceName in resources[..m])
  {
    if m > 0 {
      KubeletEntries(resources, m - 1, ids, e);
      assert resources[..m] == resources[..m - 1] + [resources[m - 1]];
      assert "container" != "sidecar" && "pod" != "twin" by {
        assert "container"[0] != "sidecar"[0] && "pod"[0] != "twin"[0];
      }
    }
  }

  lemma KubeletRecords(resources: seq<string>, ids: seq<string>, r: string)
    requires r in resources
    ensures Records(Kubelet(resources, |resources|, ids), "pod", "container", r, ids)
  {
    var entries := Kubelet(resources, |resources|, ids);
    assert resources[..|resources|] == resources;
    forall id ensures Lists(entries, "pod", "container", r, id) <==> id in ids {
      var e := Entry("pod", "container", r, ids);
      KubeletEntries(resources, |resources|, ids, e);
      var k :| 0 <= k < |entries| && entries[k] == e;
      if i :| 0 <= i < |entries| && EntryLists(entries[i], "pod", "container", r, id) {
        KubeletEntries(resources, |resources|, ids, entries[i]);
      }
      assert id in ids ==> EntryLists(entries[k], "pod", "container", r, id);
    }
  }

  /** A container that asks for one device with this number of each of these pool resources,
      and for some other resources. */
  ghost function Asking(node: Node, resources: seq<string>, others: set<string>, device: Device): Request
    requires forall r | r in resources :: IsUsable(node, r)
  {
    var names := others + set r | r in resources;
    Request(node, "pod", "container", map r | r in names :: 1, names, map r | r in names :: KindByPrefix(r),
            map r | r in resources :: [device], map r | r in resources :: Answer(node, r, device),
            Kubelet(resources, |resources|, Printed([device])))
  }

  lemma AskingSound(node: Node, resources: seq<string>, others: set<string>, device: Device, r: string)
    requires forall x | x in resources :: IsUsable(node, x)
    requires r in resources && (KindByPrefix(r) == SharedKind ==> node.KnowsShared())
    ensures Asking(node, resources, others, device).Sound(r)
  {
    KubeletRecords(resources, Printed([device]), r);
    PrintedDecodes([device], node.numCPU);
  }

  /** On every node, any resources of its pools can be asked for together with any
      other resources in the way the handshake presupposes; shared ones, when the plugins
      know the shared pool. */
  lemma AskingValid(node: Node, resources: seq<string>, others: set<string>, device: Device)
    requires node.Valid() && forall r | r in resources :: IsUsable(node, r)
    requires forall r | r in resources && KindByPrefix(r) == SharedKind :: node.KnowsShared()
    requires forall r | r in others :: IsNoPools(r)
    ensures Asking(node, resources, others, device).Valid()
  {
    var q := Asking(node, resources, others, device);
    forall r | r in q.kinds ensures q.Fits(r) {
      if r in resources {
        AskingSound(node, resources, others, device, r);
      } else {
        assert r in others && q.Foreign(r);
      }
    }
  }

  ghost predicate Sets(q: Request, v: string) {
    exists r :: r in q.answers && v in q.answers[r]
  }

  ghost function Merge(q: Request, v: string): CPUSet
    requires Sets(q, v)
  {
    var r :| r in q.answers && v in q.answers[r];
    q.answers[r][v]
  }

  /** The answers can always be merged. */
  lemma EnvExists(q: Request)
    ensures exists env :: q.IsEnv(env)
  {
    var variables := {SHARED_CPUS, EXCLUSIVE_CPUS, CLOUDPHONE_CPUS, NUMA_CPUS};
    var env := map v | v in variables && Sets(q, v) :: Merge(q, v);
    forall v | v in variables ensures q.Merged(env, v) {
    }
    assert q.IsEnv(env);
  }

  lemma DecodedDevice(q: Request, r: string, device: Device)
    requires q.Sound(r) && q.devices[r] == [device]
    ensures Decoded(q, r) == {device % q.node.numCPU}
  {
    DecodersAgree([device], q.node.numCPU);
    var cpus := set d | d in [device] :: d % q.node.numCPU;
    assert device in [device];
    assert device % q.node.numCPU in cpus;
  }

  // ---- Containers on which the programs agree ----

  /** A container that asks for both kinds, on which they do. */
  ghost predicate MeetsMixed(q: Request, env: Env) {
    q.Valid() && q.Ordinary() && q.Asks(ExclusiveKind) && q.Asks(SharedKind) && q.IsEnv(env) && Agreed(q)
  }

  lemma InPair<T>(x: T, r: T, s: T)
    ensures x in [r, s] <==> x == r || x == s
  {
    assert [r, s][0] == r && [r, s][1] == s;
  }

  /** Which kinds the container asks for. */
  lemma AskingKinds(node: Node, resources: seq<string>, others: set<string>, device: Device)
    requires forall r | r in resources :: IsUsable(node, r)
    requires forall o | o in others :: IsNoPools(o)
    ensures var q := Asking(node, resources, others, device);
      && q.node == node && others <= q.requested && others <= q.limits.Keys
      && (forall x :: x in q.kinds && q.kinds[x] != OtherKind <==> x in resources)
      && (forall x | x in resources :: q.kinds[x] == KindByPrefix(x))
  {
  }

  /** With two resources of different kinds. */
  lemma MixedIsOrdinary(q: Request, r: string, s: string)
    requires forall x :: x in q.kinds && q.kinds[x] != OtherKind <==> x in [r, s]
    requires r in q.kinds && q.kinds[r] == SharedKind && s in q.kinds && q.kinds[s] == ExclusiveKind
    ensures q.Ordinary() && q.Asks(SharedKind) && q.Asks(ExclusiveKind)
    ensures forall x | x in q.kinds && q.kinds[x] == ExclusiveKind :: x == s
  {
    forall x | x in q.kinds && q.kinds[x] != OtherKind ensures x == r || x == s {
      InPair(x, r, s);
    }
  }

  /** No other pool's name extends that of the resource's pool. */
  ghost predicate StandsAlone(node: Node, r: string) {
    forall a | Matches(node.pools, PoolOf(r), a) :: a == PoolOf(r)
  }

  /** On every node that knows its shared pool, a container that mixes it with an exclusive
      pool whose name no other one extends, and asks for any other resources besides. */
  lemma MixedFor(node: Node, r: string, s: string, others: set<string>, device: Device)
    requires node.Valid() && node.KnowsShared() && IsUsable(node, r) && IsUsable(node, s) && StandsAlone(node, s)
    requires KindByPrefix(r) == SharedKind && KindByPrefix(s) == ExclusiveKind
    requires forall o | o in others :: IsNoPools(o)
    ensures var q := Asking(node, [r, s], others, device); exists env :: MeetsMixed(q, env)
  {
    var q := Asking(node, [r, s], others, device);
    InPair(r, r, s);
    InPair(s, r, s);
    AskingKinds(node, [r, s], others, device);
    AskingValid(node, [r, s], others, device);
    MixedIsOrdinary(q, r, s);
    EnvExists(q);
    var env :| q.IsEnv(env);
    AloneAgrees(q, s);
    assert MeetsMixed(q, env);
  }

  lemma AloneAgrees(q: Request, s: string)
    requires q.Valid() && StandsAlone(q.node, s) && forall x | x in q.kinds && q.kinds[x] == ExclusiveKind :: x == s
    ensures Agreed(q)
  {
    forall x | x in q.kinds && q.kinds[x] == ExclusiveKind && q.Sound(x) ensures PoliciesAgree(q, x) {
    }
  }

  ghost predicate MeetsCloudphone(q: Request, env: Env, r: string) {
    q.Valid() && CloudphoneReady(q, r) && OnlyPoolResource(q, r) && q.IsEnv(env)
  }

  lemma InSingle<T>(x: T, r: T)
    ensures x in [r] <==> x == r
  {
    assert [r][0] == r;
  }

  lemma AloneIsOnly(q: Request, r: string)
    requires forall x :: x in q.kinds && q.kinds[x] != OtherKind <==> x in [r]
    ensures OnlyPoolResource(q, r) && r in q.kinds
  {
    forall x ensures x in [r] <==> x == r {
      InSingle(x, r);
    }
  }

  /** The core map of a cloudphone pool: keyed by core, with the nodes the plugin knows. */
  ghost predicate IsCoreMap(node: Node, coreMap: map<nat, CoreTopology>) {
    forall k | k in coreMap :: coreMap[k].core == k && NodeOf(node.cloudphone, k) == coreMap[k].node
  }

  lemma CloudphoneFor(node: Node, r: string, others: set<string>, device: Device)
    requires node.Valid() && IsUsable(node, r) && KindByPrefix(r) == CloudphoneKind && StandsAlone(node, r)
    requires node.pools[PoolOf(r)].htPolicy != MULTI_THREAD_POLICY && IsCoreMap(node, node.pools[PoolOf(r)].coreMap)
    requires device % node.numCPU in node.pools[PoolOf(r)].coreMap
    requires forall o | o in others :: IsNoPools(o)
    ensures var q := Asking(node, [r], others, device); exists env :: MeetsCloudphone(q, env, r)
  {
    var q := Asking(node, [r], others, device);
    InSingle(r, r);
    AskingKinds(node, [r], others, device);
    AskingValid(node, [r], others, device);
    AskingSound(node, [r], others, device, r);
    AloneIsOnly(q, r);
    EnvExists(q);
    var env :| q.IsEnv(env);
    ReadyIf(q, r, device);
    assert MeetsCloudphone(q, env, r);
  }

  lemma ReadyIf(q: Request, r: string, device: Device)
    requires q.Sound(r) && q.kinds[r] == CloudphoneKind && q.devices[r] == [device] && StandsAlone(q.node, r)
    requires var pool := q.node.pools[PoolOf(r)];
      pool.htPolicy != MULTI_THREAD_POLICY && IsCoreMap(q.node, pool.coreMap) && device % q.node.numCPU in pool.coreMap
    ensures CloudphoneReady(q, r)
  {
    DecodedDevice(q, r, device);
  }

  // ---- The sample node ----

  /** A machine with the sample configuration. */
  ghost predicate IsSample(node: Node) {
    && 128 <= node.numCPU < UINT32_RANGE && node.pools == SamplePools(node.cloudphone)
    && node.sharedCPUs == CpusOf(SHARED)
  }

  const OTHERS := {"cpu", "memory"}

  lemma OtherIsNoPools(r: string)
    requires r in OTHERS
    ensures IsNoPools(r)
  {
    assert |r| < |RESOURCE_BASE_NAME|;
    assert |SHARED_PREFIX| > 11 && |EXCLUSIVE_PREFIX| > 11 && |CLOUDPHONE_PREFIX| > 11;
  }

  lemma OthersFit()
    ensures forall o | o in OTHERS :: IsNoPools(o)
    ensures "cpu" in OTHERS && "memory" in OTHERS
  {
    forall o | o in OTHERS ensures IsNoPools(o) {
      OtherIsNoPools(o);
    }
  }

  lemma PrefixKind(pool: string)
    requires pool in {PLAIN, MULTI, SHARED, PHONES}
    ensures KindByPrefix(Resource(pool)) == SetterKind(Resource(pool))
  {
    Types(pool);
    PrefixesOfPool(pool);
    SetterKinds();
    LettersDiffer();
  }

  lemma SampleUsable(node: Node, pool: string)
    requires IsSample(node) && pool in {PLAIN, MULTI, SHARED, PHONES}
    ensures IsUsable(node, Resource(pool)) && PoolOf(Resource(pool)) == pool
    ensures pool != PLAIN ==> StandsAlone(node, Resource(pool))
  {
    PrefixKind(pool);
    SetterKinds();
    NoSlashes();
    assert PoolOf(Resource(pool)) == pool;
    forall a | Matches(node.pools, pool, a) ensures pool != PLAIN ==> a == pool {
      Extensions(pool, a);
    }
  }

  lemma SampleKnowsShared(node: Node)
    requires IsSample(node)
    ensures node.KnowsShared()
  {
    SomeCpus();
    InSample(SHARED, node.cloudphone);
    forall s | IsShared(node.pools, s) ensures s == SHARED {
      SharedHasPrefix(s);
      Types(s);
    }
  }

  /** On the sample node the programs agree on a container with CPU time and memory beside
      shared CPUs and those of the multiThreaded exclusive pool. */
  lemma MixedExists(node: Node, device: Device)
    requires IsSample(node)
    ensures exists q: Request, env: Env ::
      MeetsMixed(q, env) && q.node == node && OTHERS <= q.requested && OTHERS <= q.limits.Keys
  {
    SampleUsable(node, SHARED);
    SampleUsable(node, MULTI);
    PrefixKind(SHARED);
    PrefixKind(MULTI);
    SetterKinds();
    SampleKnowsShared(node);
    OthersFit();
    MixedFor(node, Resource(SHARED), Resource(MULTI), OTHERS, device);
  }

  lemma SamplePhones(node: Node)
    requires IsSample(node) && 8 in node.cloudphone && forall k | k in node.cloudphone :: node.cloudphone[k].core == k
    ensures PHONES in node.pools && node.pools[PHONES].htPolicy != MULTI_THREAD_POLICY
    ensures IsCoreMap(node, node.pools[PHONES].coreMap) && 8 in node.pools[PHONES].coreMap && 8 % node.numCPU == 8
  {
    InSample(PHONES, node.cloudphone);
    CoresOfPool(PHONES, node.cloudphone);
    PolicyOf(PHONES, node.cloudphone);
    SomeCpus();
    LettersDiffer();
    SmallRemainder(8, node.numCPU);
  }

  lemma SmallRemainder(x: nat, n: nat)
    requires x < n
    ensures x % n == x
  {
  }

  /** And on one with a cloudphone device, if the machine's topology is keyed by core. */
  lemma CloudphoneExists(node: Node)
    requires IsSample(node) && 8 in node.cloudphone && forall k | k in node.cloudphone :: node.cloudphone[k].core == k
    ensures exists q: Request, env: Env, r: string ::
      MeetsCloudphone(q, env, r) && q.node == node && OTHERS <= q.requested && OTHERS <= q.limits.Keys
  {
    SampleUsable(node, PHONES);
    PrefixKind(PHONES);
    SetterKinds();
    SamplePhones(node);
    OthersFit();
    CloudphoneHere(node, Resource(PHONES), OTHERS, 8);
  }

  lemma CloudphoneHere(node: Node, r: string, others: set<string>, device: Device)
    requires node.Valid() && IsUsable(node, r) && KindByPrefix(r) == CloudphoneKind && StandsAlone(node, r)
    requires node.pools[PoolOf(r)].htPolicy != MULTI_THREAD_POLICY && IsCoreMap(node, node.pools[PoolOf(r)].coreMap)
    requires device % node.numCPU in node.pools[PoolOf(r)].coreMap
    requires forall o | o in others :: IsNoPools(o)
    ensures exists q: Request, env: Env, t: string ::
      MeetsCloudphone(q, env, t) && q.node == node && others <= q.requested && others <= q.limits.Keys
  {
    AskingKinds(node, [r], others, device);
    CloudphoneFor(node, r, others, device);
  }

  // ---- Where they do not agree ----

  /** An exclusive pool whose name is extended by that of a pool with the other policy: the
      setter may want the granted CPUs for a container, and it may want others. */
  lemma OtherPolicy(q: Request, r: string, a: string)
    requires q.Valid() && q.Ordinary() && !q.Asks(SharedKind) && r in q.kinds && q.kinds[r] == ExclusiveKind && q.Sound(r)
    requires Matches(q.node.pools, PoolOf(r), a) && IsMulti(q.node.pools[a]) && !IsMulti(q.node.pools[PoolOf(r)])
    requires AddSiblings(Decoded(q, r), q.node.cores) != Decoded(q, r)
    ensures AsContainer(q).MayHold(Decoded(q, r)) && AsContainer(q).MayHold(AddSiblings(Decoded(q, r), q.node.cores))
    ensures !Agreed(q) && GrantedPart(q) == Decoded(q, r)
  {
    ByPolicy(q, r, a);
    ByPolicy(q, r, PoolOf(r));
    GrantedIsExpanded(q, r);
    GrantedPartOf(q, r);
    assert Matches(q.node.pools, PoolOf(r), PoolOf(r));
    MayHoldExpanded(q, r, a);
    MayHoldExpanded(q, r, PoolOf(r));
    assert !PoliciesAgree(q, r) && !SiblingsAddNothing(q, r);
  }

  lemma MayHoldExpanded(q: Request, r: string, a: string)
    requires q.Valid() && q.Ordinary() && q.Sound(r) && r in q.kinds && q.kinds[r] == ExclusiveKind
    requires !q.Asks(SharedKind) && Matches(q.node.pools, PoolOf(r), a)
    ensures AsContainer(q).MayHold(ExpandedBy(q, r, a))
  {
    WantsExpanded(q, r, a);
    var cpus := ExpandedBy(q, r, a);
    assert SharedPart(q) + cpus == cpus;
    assert q.Asks(ExclusiveKind);
    OrdinaryChoices(q, Decided(cpus, cpus));
  }

  /** So its CPU set is not settled. */
  lemma OtherPolicyUnsettled(q: Request, r: string, a: string)
    requires q.Valid() && q.Ordinary() && !q.Asks(SharedKind) && r in q.kinds && q.kinds[r] == ExclusiveKind && q.Sound(r)
    requires Matches(q.node.pools, PoolOf(r), a) && IsMulti(q.node.pools[a]) && !IsMulti(q.node.pools[PoolOf(r)])
    requires AddSiblings(Decoded(q, r), q.node.cores) != Decoded(q, r)
    ensures AsContainer(q).Valid() && !HasOneSet(AsContainer(q)) && !SetsAgree(AsContainer(q))
  {
    OtherPolicy(q, r, a);
    ContainerKinds(q);
    OneSetExactly(AsContainer(q));
  }

  lemma OnlyExclusive(q: Request, r: string)
    requires OnlyPoolResource(q, r) && r in q.kinds && q.kinds[r] == ExclusiveKind
    ensures q.Ordinary() && !q.Asks(SharedKind)
  {
  }

  /** A container that asks for one CPU of an exclusive pool and nothing else. */
  lemma OneExclusive(node: Node, r: string, device: Device)
    requires node.Valid() && IsUsable(node, r) && KindByPrefix(r) == ExclusiveKind
    ensures var q := Asking(node, [r], {}, device);
      && q.node == node && q.Valid() && q.Ordinary() && q.Sound(r) && r in q.kinds && q.kinds[r] == ExclusiveKind
      && !q.Asks(SharedKind) && Decoded(q, r) == {device % node.numCPU}
  {
    var q := Asking(node, [r], {}, device);
    InSingle(r, r);
    AskingKinds(node, [r], {}, device);
    AskingValid(node, [r], {}, device);
    AskingSound(node, [r], {}, device, r);
    AloneIsOnly(q, r);
    OnlyExclusive(q, r);
    DecodedDevice(q, r, device);
  }

  lemma SamplePlain(node: Node)
    requires IsSample(node)
    ensures Matches(node.pools, PLAIN, MULTI) && Matches(node.pools, PLAIN, PLAIN)
    ensures IsMulti(node.pools[MULTI]) && !IsMulti(node.pools[PLAIN]) && 4 in node.pools[PLAIN].cpus && 4 % node.numCPU == 4
  {
    PlainExtended();
    LettersDiffer();
    InSample(PLAIN, node.cloudphone);
    InSample(MULTI, node.cloudphone);
    PolicyOf(PLAIN, node.cloudphone);
    PolicyOf(MULTI, node.cloudphone);
    SomeCpus();
    SmallRemainder(4, node.numCPU);
  }

  /** A container that was granted this CPU, and for which the setter may want it alone or
      with its siblings. */
  ghost predicate IsUnsettled(q: Request, node: Node, cpu: nat) {
    && q.Valid() && q.Ordinary() && q.node == node && !Agreed(q) && GrantedPart(q) == {cpu}
    && AsContainer(q).MayHold({cpu}) && AsContainer(q).MayHold(AddSiblings({cpu}, node.cores))
    && AsContainer(q).Valid() && !SetsAgree(AsContainer(q))
  }

  /** In the sample configuration a multiThreaded pool extends the name of the plain exclusive
      pool, which is singleThreaded. So on a machine where CPU 4 has a sibling, a container
      that was granted CPU 4 may get it alone, as the starter expects, or with the siblings;
      its CPU set is not settled. */
  lemma PlainDisagrees(node: Node, t: nat)
    requires IsSample(node) && t != 4 && Siblings(node.cores, 4, t)
    ensures exists q: Request :: IsUnsettled(q, node, 4)
  {
    SampleUsable(node, PLAIN);
    PrefixKind(PLAIN);
    SetterKinds();
    SamplePlain(node);
    DisagreesHere(node, Resource(PLAIN), MULTI, 4, t);
  }

  lemma DisagreesHere(node: Node, r: string, a: string, device: Device, t: nat)
    requires node.Valid() && IsUsable(node, r) && KindByPrefix(r) == ExclusiveKind
    requires Matches(node.pools, PoolOf(r), a) && IsMulti(node.pools[a]) && !IsMulti(node.pools[PoolOf(r)])
    requires device % node.numCPU == device && t != device && Siblings(node.cores, device, t)
    ensures exists q: Request :: IsUnsettled(q, node, device)
  {
    OneExclusive(node, r, device);
    UnsettledIf(Asking(node, [r], {}, device), r, a, device, t);
  }

  lemma UnsettledIf(q: Request, r: string, a: string, cpu: nat, t: nat)
    requires q.Valid() && q.Ordinary() && !q.Asks(SharedKind) && r in q.kinds && q.kinds[r] == ExclusiveKind && q.Sound(r)
    requires Matches(q.node.pools, PoolOf(r), a) && IsMulti(q.node.pools[a]) && !IsMulti(q.node.pools[PoolOf(r)])
    requires Decoded(q, r) == {cpu} && t != cpu && Siblings(q.node.cores, cpu, t)
    ensures IsUnsettled(q, q.node, cpu)
  {
    assert HasSiblingIn(q.node.cores, {cpu}, t);
    assert t in AddSiblings({cpu}, q.node.cores);
    OtherPolicy(q, r, a);
    OtherPolicyUnsettled(q, r, a);
  }
}
