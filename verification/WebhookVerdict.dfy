/** What the webhook's answer means for a pod, on the fields of the pod and of its annotation. */
module WebhookVerdict {
  import opened Wrappers
  import opened Annotation
  import opened AnnotationCheck
  import opened CpuSets
  import opened DeviceIds
  import opened DevicePlugin
  import opened GoText
  import opened PodPatch
  import opened PoolRequests
  import opened Pools
  import opened Webhook
  import PS = ProcessStarter

  /** What mutatePods may answer, over all readings of the pool requests. */
  ghost predicate MayAnswer(pod: Pod, quotas: string, configs: Option<seq<PoolConfig>>, starter: string, response: Response) {
    exists poolRequests {:trigger Answers(pod, poolRequests, quotas, configs, starter, response)} ::
      AllRead(poolRequests, pod.containers) && Answers(pod, poolRequests, quotas, configs, starter, response)
  }

  // ---- Which entries of the annotation count ----

  ghost predicate IsLast(entries: seq<AnnotatedContainer>, j: nat) {
    j < |entries| && forall k | j < k < |entries| :: entries[k].name != entries[j].name
  }

  /** The entry is the last one of its name. */
  ghost predicate Counts(pod: Pod, e: AnnotatedContainer) {
    pod.annotation.Some? && exists j: nat :: IsLast(pod.annotation.value.entries, j) && pod.annotation.value.entries[j] == e
  }

  lemma {:induction false} KeptIsLast(entries: seq<AnnotatedContainer>, m: nat, name: string) returns (j: nat)
    requires m <= |entries| && name in ByName(entries, m)
    ensures j < m && entries[j].name == name && ByName(entries, m)[name] == entries[j]
    ensures forall k | j < k < m :: entries[k].name != name
  {
    if entries[m - 1].name == name {
      j := m - 1;
    } else {
      j := KeptIsLast(entries, m - 1, name);
    }
  }

  /** These are the entries that the webhook keeps. */
  lemma CountsExactly(pod: Pod, e: AnnotatedContainer)
    ensures Counts(pod, e) <==> e.name in Annotated(pod) && Annotated(pod)[e.name] == e
  {
    if pod.annotation.Some? {
      var entries := pod.annotation.value.entries;
      if j: nat :| IsLast(entries, j) && entries[j] == e {
        LastIsKept(entries, |entries|, j);
      }
      if e.name in Annotated(pod) {
        var j := KeptIsLast(entries, |entries|, e.name);
        assert IsLast(entries, j);
      }
    }
  }

  ghost predicate IsNamed(pod: Pod, name: string) {
    pod.annotation.Some? && exists j :: 0 <= j < |pod.annotation.value.entries| && pod.annotation.value.entries[j].name == name
  }

  lemma NamedExactly(pod: Pod, name: string)
    ensures name in Annotated(pod) <==> IsNamed(pod, name)
  {
    if pod.annotation.Some? {
      var entries := pod.annotation.value.entries;
      if name in Annotated(pod) {
        var j := KeptIsLast(entries, |entries|, name);
      }
      if j :| 0 <= j < |entries| && entries[j].name == name {
        NameKept(entries, |entries|, j);
      }
    }
  }

  lemma {:induction false} NameKept(entries: seq<AnnotatedContainer>, m: nat, j: nat)
    requires j < m <= |entries|
    ensures entries[j].name in ByName(entries, m)
  {
    if j < m - 1 {
      NameKept(entries, m - 1, j);
    }
  }

  // ---- What an entry may ask for ----

  /** The entry names its container and lists processes, each with a program and CPUs. */
  ghost predicate IsComplete(e: AnnotatedContainer) {
    && e.name != "" && e.processes != []
    && forall i | 0 <= i < |e.processes| :: e.processes[i].procName != "" && e.processes[i].cpus != 0
  }

  ghost function Amount(limits: map<string, int>, prefix: string): int {
    SumOf(limits, WithPrefix(limits.Keys, prefix))
  }

  /** The resource names the pool, and its processes get by with twice its limit. */
  ghost predicate Serves(limits: map<string, int>, k: string, processes: seq<Process>, pool: string) {
    k in limits && Names(k, pool) && TotalOf(processes, |processes|, pool) <= 2 * limits[k]
  }

  ghost predicate IsServed(limits: map<string, int>, processes: seq<Process>, pool: string) {
    exists k :: Serves(limits, k, processes, pool)
  }

  /** The processes ask for the shared CPU time of the limits, no less and no more, and from
      each pool for at most twice what its resource is limited to. */
  ghost predicate FitsLimits(limits: map<string, int>, processes: seq<Process>) {
    && SumPrefixed(processes, |processes|, SHARED_POOL_ID) == Amount(limits, SHARED_PREFIX)
    && forall i | 0 <= i < |processes| :: IsServed(limits, processes, processes[i].poolName)
  }

  ghost predicate FitsContainer(pod: Pod, e: AnnotatedContainer, i: nat) {
    i < |pod.containers| && pod.containers[i].name == e.name && FitsLimits(pod.containers[i].limits, e.processes)
  }

  ghost predicate EntryFits(pod: Pod, e: AnnotatedContainer) {
    IsComplete(e) && exists i: nat :: FitsContainer(pod, e, i)
  }

  lemma FaultlessExactly(e: AnnotatedContainer)
    ensures Faultless(e) <==> IsComplete(e)
  {
    forall i | 0 <= i < |e.processes|
      ensures ProcessFault(e.processes[i]) == None <==> e.processes[i].procName != "" && e.processes[i].cpus != 0
    {
    }
  }

  lemma AcceptedFits(poolRequests: PoolRequestMap, c: Container, processes: seq<Process>)
    requires RequestsRead(poolRequests, c) && processes != [] && ContainerAccepted(poolRequests, c.name, processes)
    ensures FitsLimits(c.limits, processes)
  {
    AcceptedShared(poolRequests, c.name, processes);
    forall i | 0 <= i < |processes| ensures IsServed(c.limits, processes, processes[i].poolName) {
      var pool := processes[i].poolName;
      assert PoolAccepted(poolRequests, c.name, processes, pool);
      var k :| k in c.limits.Keys && Names(k, pool) && poolRequests[c.name].pools[pool] == c.limits[k];
      assert Serves(c.limits, k, processes, pool);
    }
  }

  lemma FitsAccepted(poolRequests: PoolRequestMap, c: Container, processes: seq<Process>)
    requires RequestsRead(poolRequests, c) && NamesDiffer(c.limits) && FitsLimits(c.limits, processes)
    ensures ContainerAccepted(poolRequests, c.name, processes)
  {
    forall i | 0 <= i < |processes| ensures PoolAccepted(poolRequests, c.name, processes, processes[i].poolName) {
      var pool := processes[i].poolName;
      assert IsServed(c.limits, processes, pool);
      var k :| Serves(c.limits, k, processes, pool);
      assert k in c.limits.Keys && HasPrefix(k, RESOURCE_BASE_NAME);
      assert c.name in poolRequests && pool in poolRequests[c.name].pools;
      var l :| l in c.limits.Keys && Names(l, pool) && poolRequests[c.name].pools[pool] == c.limits[l];
      assert l == k;
    }
  }

  /** An accepted entry belongs to a container of the pod. */
  lemma AcceptedContainer(poolRequests: PoolRequestMap, pod: Pod, e: AnnotatedContainer)
    requires AllRead(poolRequests, pod.containers) && e.processes != [] && ContainerAccepted(poolRequests, e.name, e.processes)
    ensures exists i: nat :: FitsContainer(pod, e, i)
  {
    AcceptedShared(poolRequests, e.name, e.processes);
    var i :| 0 <= i < |pod.containers| && pod.containers[i].name == e.name;
    assert RequestsRead(poolRequests, pod.containers[i]);
    AcceptedFits(poolRequests, pod.containers[i], e.processes);
    assert FitsContainer(pod, e, i);
  }

  // ---- The verdict ----

  /** The check as the webhook makes it, entry by entry. */
  ghost predicate IsPassed(pod: Pod, poolRequests: PoolRequestMap, e: AnnotatedContainer) {
    Faultless(e) && ContainerAccepted(poolRequests, e.name, e.processes)
  }

  lemma FitsExactly(pod: Pod, poolRequests: PoolRequestMap)
    requires pod.annotation.Some?
    ensures AnnotationFits(pod, poolRequests) <==>
      pod.annotation.value.wellFormed && forall e | Counts(pod, e) :: IsPassed(pod, poolRequests, e)
  {
    if AnnotationFits(pod, poolRequests) {
      forall e | Counts(pod, e) ensures IsPassed(pod, poolRequests, e) {
        CountsExactly(pod, e);
      }
    }
    if forall e | Counts(pod, e) :: IsPassed(pod, poolRequests, e) {
      forall name | name in Annotated(pod) ensures IsPassed(pod, poolRequests, Annotated(pod)[name]) {
        CountsExactly(pod, Annotated(pod)[name]);
      }
    }
  }

  lemma PassedFits(pod: Pod, poolRequests: PoolRequestMap, e: AnnotatedContainer)
    requires AllRead(poolRequests, pod.containers)
    ensures IsPassed(pod, poolRequests, e) ==> EntryFits(pod, e)
    ensures (forall i | 0 <= i < |pod.containers| :: NamesDiffer(pod.containers[i].limits)) && EntryFits(pod, e) ==>
      IsPassed(pod, poolRequests, e)
  {
    FaultlessExactly(e);
    if IsPassed(pod, poolRequests, e) {
      AcceptedContainer(poolRequests, pod, e);
    }
    if (forall i | 0 <= i < |pod.containers| :: NamesDiffer(pod.containers[i].limits)) && EntryFits(pod, e) {
      var i: nat :| FitsContainer(pod, e, i);
      assert RequestsRead(poolRequests, pod.containers[i]);
      FitsAccepted(poolRequests, pod.containers[i], e.processes);
    }
  }

  /** The pod is admitted only if its annotation is well formed and the last entry of every
      name fits the limits of a container of the pod. */
  lemma AllowedFits(pod: Pod, quotas: string, configs: Option<seq<PoolConfig>>, starter: string, response: Response,
                    e: AnnotatedContainer)
    requires MayAnswer(pod, quotas, configs, starter, response) && response.Allowed? && Counts(pod, e)
    ensures pod.annotation.value.wellFormed && EntryFits(pod, e)
  {
    var poolRequests :| AllRead(poolRequests, pod.containers) && Answers(pod, poolRequests, quotas, configs, starter, response);
    FitsExactly(pod, poolRequests);
    PassedFits(pod, poolRequests, e);
  }

  /** The container is named by the annotation, or has a command and exclusive or cloudphone
      CPUs. */
  ghost predicate MustPin(pod: Pod, i: nat) {
    && i < |pod.containers|
    && (IsNamed(pod, pod.containers[i].name)
        || (Items(pod.containers[i].command) != []
            && (Amount(pod.containers[i].limits, EXCLUSIVE_PREFIX) > 0 || Amount(pod.containers[i].limits, CLOUDPHONE_PREFIX) > 0)))
  }

  lemma PinnedExactly(pod: Pod, poolRequests: PoolRequestMap, i: nat)
    requires AllRead(poolRequests, pod.containers) && i < |pod.containers|
    ensures PinnedAt(pod, poolRequests, i) <==> MustPin(pod, i)
  {
    assert RequestsRead(poolRequests, pod.containers[i]);
    NamedExactly(pod, pod.containers[i].name);
  }

  lemma {:induction false} PinsOneExactly(pod: Pod, poolRequests: PoolRequestMap, m: nat)
    requires AllRead(poolRequests, pod.containers) && m <= |pod.containers|
    ensures PinsOne(pod, poolRequests, m) <==> exists i: nat :: i < m && MustPin(pod, i)
  {
    if m > 0 {
      PinsOneExactly(pod, poolRequests, m - 1);
      PinnedExactly(pod, poolRequests, m - 1);
    }
  }

  /** The condition under which an annotated pod is admitted. */
  ghost predicate IsAdmissible(pod: Pod)
    requires pod.annotation.Some?
  {
    pod.annotation.value.wellFormed && (forall e | Counts(pod, e) :: EntryFits(pod, e)) && exists i: nat :: MustPin(pod, i)
  }

  lemma AdmissibleExactly(pod: Pod, poolRequests: PoolRequestMap)
    requires AllRead(poolRequests, pod.containers) && pod.annotation.Some?
    requires forall i | 0 <= i < |pod.containers| :: NamesDiffer(pod.containers[i].limits)
    ensures AnnotationFits(pod, poolRequests) && PinsOne(pod, poolRequests, |pod.containers|) <==> IsAdmissible(pod)
  {
    FitsExactly(pod, poolRequests);
    PinsOneExactly(pod, poolRequests, |pod.containers|);
    forall e ensures IsPassed(pod, poolRequests, e) <==> EntryFits(pod, e) {
      PassedFits(pod, poolRequests, e);
    }
  }

  lemma AnswersExactly(pod: Pod, poolRequests: PoolRequestMap, quotas: string, configs: Option<seq<PoolConfig>>, starter: string,
                       response: Response)
    requires Answers(pod, poolRequests, quotas, configs, starter, response)
    ensures pod.annotation.None? ==> response.Allowed?
    ensures pod.annotation.Some? ==>
      (response.Allowed? <==> AnnotationFits(pod, poolRequests) && PinsOne(pod, poolRequests, |pod.containers|))
  {
  }

  /** A pod without annotation is admitted. One with an annotation, whose resources name
      different pools, is admitted exactly when it is admissible, and denied otherwise. */
  lemma AllowedExactly(pod: Pod, quotas: string, configs: Option<seq<PoolConfig>>, starter: string, response: Response)
    requires MayAnswer(pod, quotas, configs, starter, response)
    requires forall i | 0 <= i < |pod.containers| :: NamesDiffer(pod.containers[i].limits)
    ensures response.Allowed? <==> (pod.annotation.Some? ==> IsAdmissible(pod))
  {
    var poolRequests :| AllRead(poolRequests, pod.containers) && Answers(pod, poolRequests, quotas, configs, starter, response);
    AnswersExactly(pod, poolRequests, quotas, configs, starter, response);
    if pod.annotation.Some? {
      AdmissibleExactly(pod, poolRequests);
    }
  }

  /** The entry asks some pool for more than twice every limit under its name. */
  ghost predicate AsksTooMuch(pod: Pod, e: AnnotatedContainer, p: nat) {
    && p < |e.processes|
    && forall i | 0 <= i < |pod.containers| && pod.containers[i].name == e.name ::
         !IsServed(pod.containers[i].limits, e.processes, e.processes[p].poolName)
  }

  lemma TooMuch(pod: Pod, e: AnnotatedContainer, p: nat)
    requires AsksTooMuch(pod, e, p)
    ensures !EntryFits(pod, e)
  {
    forall i: nat ensures !FitsContainer(pod, e, i) {
    }
  }

  /** Such a pod is denied, whatever else it says. */
  lemma TooMuchDenied(pod: Pod, quotas: string, configs: Option<seq<PoolConfig>>, starter: string, response: Response,
                      e: AnnotatedContainer, p: nat)
    requires MayAnswer(pod, quotas, configs, starter, response) && Counts(pod, e) && AsksTooMuch(pod, e, p)
    ensures response == Denied
  {
    TooMuch(pod, e, p);
    if response.Allowed? {
      AllowedFits(pod, quotas, configs, starter, response, e);
    }
  }

  // ---- What the starter can rely on ----

  /** A two-way multiThreaded exclusive plugin, not overcommitted, and distinct devices that a
      container got from it. */
  ghost predicate IsMultiThreaded(plugin: Plugin, devices: seq<nat>) {
    && plugin.numCPU > 0 && plugin.poolType == EXCLUSIVE_POOL_ID && plugin.pool.htPolicy == MULTI_THREAD_POLICY
    && (forall c | c in plugin.pool.cpus :: c < plugin.numCPU)
    && PS.Distinct(devices)
    && (forall d | d in devices :: d in AdvertisedNumbers(plugin.pool.cpus, 1, plugin.numCPU) && d < UINT32_RANGE)
    && OneThreadPerCore(PluginSet(Printed(devices), plugin.numCPU), plugin.htTopology)
  }

  lemma AdmittedAccepted(pod: Pod, quotas: string, configs: Option<seq<PoolConfig>>, starter: string, response: Response,
                         e: AnnotatedContainer, i: nat) returns (poolRequests: PoolRequestMap)
    requires MayAnswer(pod, quotas, configs, starter, response) && response.Allowed? && Counts(pod, e)
    requires i < |pod.containers| && pod.containers[i].name == e.name
    ensures ContainerAccepted(poolRequests, e.name, e.processes) && e.processes != []
    ensures RequestsRead(poolRequests, pod.containers[i])
  {
    poolRequests :| AllRead(poolRequests, pod.containers) && Answers(pod, poolRequests, quotas, configs, starter, response);
    AnswersExactly(pod, poolRequests, quotas, configs, starter, response);
    FitsExactly(pod, poolRequests);
    assert IsPassed(pod, poolRequests, e);
    FaultlessExactly(e);
  }

  /** So in an admitted pod a container that got from such a plugin as many devices as its
      limits say never runs out of CPUs for its annotated processes. */
  lemma AdmittedNeverRunsOut(pod: Pod, quotas: string, configs: Option<seq<PoolConfig>>, starter: string, response: Response,
                             e: AnnotatedContainer, i: nat, plugin: Plugin, devices: seq<nat>)
    requires MayAnswer(pod, quotas, configs, starter, response) && response.Allowed? && Counts(pod, e)
    requires i < |pod.containers| && pod.containers[i].name == e.name
    requires forall k | k in pod.containers[i].limits :: pod.containers[i].limits[k] >= 0
    requires |devices| == Amount(pod.containers[i].limits, EXCLUSIVE_PREFIX) && IsMultiThreaded(plugin, devices)
    ensures PS.Demand(e.processes, |e.processes|) <= |List(plugin.GrantedCPUs(Printed(devices)))|
  {
    var poolRequests := AdmittedAccepted(pod, quotas, configs, starter, response, e, i);
    AcceptedShared(poolRequests, e.name, e.processes);
    NeverRunsOut(poolRequests, e.name, e.processes, pod.containers[i].limits, plugin, devices);
  }

  // ---- A pod that asks for too much ----

  /** The container may use one exclusive CPU, and the annotation asks for ten. */
  ghost predicate AsksTen(pod: Pod, e: AnnotatedContainer) {
    && |pod.containers| == 1 && pod.containers[0].limits == map[EXCLUSIVE_PREFIX := 1]
    && pod.annotation == Some(AnnotationText([e], true))
    && e.name == pod.containers[0].name && |e.processes| == 1
    && e.processes[0].cpus == 10 && e.processes[0].poolName == EXCLUSIVE_POOL_ID
  }

  lemma TotalOfOne(processes: seq<Process>, pool: string)
    requires |processes| == 1 && processes[0].poolName == pool
    ensures TotalOf(processes, 1, pool) == processes[0].cpus
  {
    assert TotalOf(processes, 0, pool) == 0;
  }

  lemma NotServed(limits: map<string, int>, key: string, processes: seq<Process>)
    requires limits == map[key := 1] && |processes| == 1 && processes[0].cpus == 10
    ensures !IsServed(limits, processes, processes[0].poolName)
  {
    TotalOfOne(processes, processes[0].poolName);
  }

  lemma OneEntryCounts(pod: Pod, e: AnnotatedContainer)
    requires pod.annotation == Some(AnnotationText([e], true))
    ensures Counts(pod, e)
  {
    assert pod.annotation.value.entries[0] == e;
    assert IsLast(pod.annotation.value.entries, 0);
  }

  lemma TenIsTooMuch(pod: Pod, e: AnnotatedContainer)
    requires AsksTen(pod, e)
    ensures AsksTooMuch(pod, e, 0)
  {
    NotServed(pod.containers[0].limits, EXCLUSIVE_PREFIX, e.processes);
  }

  lemma TenDenied(pod: Pod, quotas: string, configs: Option<seq<PoolConfig>>, starter: string, response: Response,
                  e: AnnotatedContainer)
    requires MayAnswer(pod, quotas, configs, starter, response) && AsksTen(pod, e)
    ensures response == Denied
  {
    OneEntryCounts(pod, e);
    TenIsTooMuch(pod, e);
    TooMuchDenied(pod, quotas, configs, starter, response, e, 0);
  }
}
