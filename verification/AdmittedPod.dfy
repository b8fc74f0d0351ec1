/** What an admitted pod looks like, member by member. */
module AdmittedPod {
  import opened Wrappers
  import opened AnnotationCheck
  import opened ArgsText
  import opened CfsLimit
  import opened GoText
  import opened PodPatch
  import opened PoolRequests
  import opened Pools
  import opened Webhook
  import opened WebhookEffect
  import opened WebhookRuns
  import opened WebhookVerdict
  import WebhookHistory

  // ---- One container ----

  /** The mounts through which the starter finds the annotation, itself and the CPUs. */
  ghost predicate AreOwnMounts(mounts: seq<Mount>, starter: string, name: string) {
    mounts == [Mount("podinfo", "/etc/podinfo", true, ""), Mount("hostbin", starter, true, ""),
               Mount("cpu-" + name, "/sys/devices/system/cpu", true, "HostToContainer")]
  }

  lemma OwnMounts(starter: string, name: string)
    ensures AreOwnMounts(PinningMounts(starter, name), starter, name)
  {
  }

  /** The value of CPU_POOLS for these amounts of exclusive, cloudphone and shared CPUs. */
  ghost predicate IsPoolsText(text: string, exclusive: int, cloudphone: int, shared: int) {
    && (exclusive > 0 && shared > 0 ==> text == "exclusive&shared")
    && (exclusive > 0 && shared <= 0 ==> text == "exclusive")
    && (exclusive <= 0 && cloudphone > 0 ==> text == "cloudphone")
    && (exclusive <= 0 && cloudphone <= 0 && shared > 0 ==> text == "shared")
  }

  lemma PoolsText(requests: Requests)
    ensures IsPoolsText(CpuPools(requests), requests.exclusive, requests.cloudphone, requests.shared)
  {
  }

  ghost predicate IsFresh(c: Container) {
    forall k | 0 <= k < |Items(c.mounts)| :: Items(c.mounts)[k].name != "podinfo"
  }

  ghost predicate KnowsPools(c: Container) {
    exists k :: 0 <= k < |Items(c.env)| && Items(c.env)[k].name == "CPU_POOLS"
  }

  /** The limit in thousandths of a CPU, with a request of zero; or what was there. */
  ghost predicate HasLimit(c: Container, d: Container, total: int) {
    if total > 0 then d.cpuLimit == Some(Itoa(total) + "m") && d.cpuRequest == Some("0m")
    else d.cpuLimit == c.cpuLimit && d.cpuRequest == c.cpuRequest
  }

  /** A container started through the starter: its command is the path at which the starter's
      file is mounted, and it has its own mounts behind those it had. */
  ghost predicate IsStarted(c: Container, d: Container, starter: string) {
    && d.command == Some([starter])
    && exists mounts :: AreOwnMounts(mounts, starter, c.name) && d.mounts == Some(Items(c.mounts) + mounts)
  }

  /** The variables behind those the container had. */
  ghost predicate HasVariables(c: Container, d: Container, pinned: bool, pools: Option<string>) {
    Items(d.env) == Items(c.env) + (if pinned then [EnvVar("CONTAINER_NAME", c.name)] else [])
                    + if pools.Some? then [EnvVar("CPU_POOLS", pools.value)] else []
  }

  /** The arguments take over the command of a started container that the annotation does not
      name, if it has one; that is what comes out of the text when it needs no escaping. */
  ghost predicate HasArguments(c: Container, d: Container, wraps: bool) {
    if !wraps then d.args == c.args
    else AllClean(Items(c.command)) && AllClean(Items(c.args)) ==> Items(d.args) == Items(c.command) + Items(c.args)
  }

  lemma MutatedArguments(s: Setting, c: Container)
    ensures HasArguments(c, s.Mutated(c), s.PinsNow(c) && Items(c.command) != [] && !s.annotated)
  {
    if s.WrapsNow(c) && AllClean(Items(c.command)) && AllClean(Items(c.args)) {
      WebhookHistory.WrappedContainer(s, c);
    }
  }

  /** What becomes of a container, given whether it has to be pinned and what it asks for. */
  ghost predicate IsAdmittedAs(c: Container, d: Container, pins: bool, starter: string, exclusive: int, cloudphone: int, shared: int) {
    && d.name == c.name && d.limits == c.limits
    && (if pins then IsStarted(c, d, starter) else d.command == c.command && d.mounts == c.mounts)
    && exists pools: Option<string> :: HasVariables(c, d, pins, pools)
         && (pools.Some? <==> (shared > 0 || exclusive > 0 || cloudphone > 0) && !KnowsPools(c))
         && (pools.Some? ==> IsPoolsText(pools.value, exclusive, cloudphone, shared))
  }

  lemma MutatedVariables(s: Setting, c: Container) returns (pools: Option<string>)
    ensures HasVariables(c, s.Mutated(c), s.PinsNow(c), pools)
    ensures pools == if s.NamesPoolsNow(c) then Some(CpuPools(s.requests)) else None
  {
    pools := if s.NamesPoolsNow(c) then Some(CpuPools(s.requests)) else None;
    s.PinnedKeepsPools(c);
    var pinned := s.Pinned(s.Limited(c));
    assert Items(pinned.env) == Items(c.env) + if s.PinsNow(c) then [EnvVar("CONTAINER_NAME", c.name)] else [];
  }

  lemma MutatedFields(s: Setting, c: Container)
    ensures var d := s.Mutated(c);
      && (s.PinsNow(c) ==> IsStarted(c, d, s.starter))
      && (!s.PinsNow(c) ==> d.command == c.command && d.mounts == c.mounts)
      && d.name == c.name && d.limits == c.limits && HasLimit(c, d, s.total)
  {
    OwnMounts(s.starter, c.name);
  }

  lemma PinsNowExactly(s: Setting, c: Container)
    ensures s.PinsNow(c) <==> s.Pins(c) && IsFresh(c)
    ensures s.NamesPoolsNow(c) <==> UsesPools(s.requests) && !KnowsPools(c)
  {
  }

  lemma AdmittedFields(s: Setting, c: Container)
    ensures IsAdmittedAs(c, s.Mutated(c), s.Pins(c) && IsFresh(c), s.starter,
                         s.requests.exclusive, s.requests.cloudphone, s.requests.shared)
  {
    PinsNowExactly(s, c);
    MutatedFields(s, c);
    PoolsText(s.requests);
    var pools := MutatedVariables(s, c);
  }

  // ---- The pod ----

  /** The answer as an admission of the pod. */
  ghost predicate IsAnswer(pod: Pod, quotas: string, configs: Option<seq<PoolConfig>>, response: Response, a: Admission) {
    && response.Allowed? && a.pod == pod && a.Valid() && AllRead(a.poolRequests, pod.containers)
    && AreCfsLimits(pod, a.poolRequests, quotas, configs, a.totals, |a.totals|) && response.patches == a.Patches()
  }

  lemma AllowedIsAdmission(pod: Pod, quotas: string, configs: Option<seq<PoolConfig>>, starter: string, response: Response)
    returns (a: Admission)
    requires MayAnswer(pod, quotas, configs, starter, response) && response.Allowed?
    ensures IsAnswer(pod, quotas, configs, response, a) && a.starter == starter
  {
    var poolRequests :| AllRead(poolRequests, pod.containers) && Answers(pod, poolRequests, quotas, configs, starter, response);
    var totals: seq<int> :|
      && |totals| == |pod.containers| && AreCfsLimits(pod, poolRequests, quotas, configs, totals, |totals|)
      && response == Allowed(PodPatches(pod, poolRequests, totals, starter));
    a := Admission(pod, poolRequests, totals, starter);
  }

  /** A container of an admitted pod: its limit is one that its resources lead to; it is
      started through the starter exactly if it must be pinned, and told its pools. */
  lemma AdmittedContainer(pod: Pod, quotas: string, configs: Option<seq<PoolConfig>>, starter: string, response: Response,
                          after: Pod, i: nat) returns (total: int)
    requires MayAnswer(pod, quotas, configs, starter, response) && response.Allowed?
    requires Apply(pod, response.patches) == Some(after) && i < |pod.containers|
    ensures |after.containers| == |pod.containers|
    ensures var c, d := pod.containers[i], after.containers[i];
      && MayLimit(c.limits, quotas, configs, total) && HasLimit(c, d, total)
      && HasArguments(c, d, MustPin(pod, i) && IsFresh(c) && Items(c.command) != [] && !IsNamed(pod, c.name))
      && IsAdmittedAs(c, d, MustPin(pod, i) && IsFresh(c), starter,
                      Amount(c.limits, EXCLUSIVE_PREFIX), Amount(c.limits, CLOUDPHONE_PREFIX), Amount(c.limits, SHARED_PREFIX))
  {
    var a := AllowedIsAdmission(pod, quotas, configs, starter, response);
    PodEffect(a);
    assert after == a.Mutated() && after.containers[i] == a.MutatedAt(i);
    assert RequestsRead(a.poolRequests, pod.containers[i]);
    total := a.totals[i];
    WebhookHistory.ReadLimit(pod, quotas, configs, WebhookHistory.Reading(a.poolRequests, a.totals), i);
    PinnedExactly(pod, a.poolRequests, i);
    AdmittedFields(a.At(i), pod.containers[i]);
    MutatedFields(a.At(i), pod.containers[i]);
    PinsNowExactly(a.At(i), pod.containers[i]);
    NamedExactly(pod, pod.containers[i].name);
    MutatedArguments(a.At(i), pod.containers[i]);
  }

  // ---- The volumes ----

  ghost predicate UsesName(pod: Pod, name: string) {
    exists k :: 0 <= k < |Items(pod.volumes)| && Items(pod.volumes)[k].name == name
  }

  /** The volumes of the webhook: the annotations, the file of the starter, and for each
      container the CPU directory made for it in this pod. */
  ghost predicate AreOwnVolumes(volumes: seq<Volume>, pod: Pod, starter: string) {
    && |volumes| == |pod.containers| + 2
    && volumes[0] == Volume("podinfo", PodAnnotations) && volumes[1] == Volume("hostbin", HostPath(starter, ""))
    && forall i | 0 <= i < |pod.containers| :: volumes[i + 2] == Volume("cpu-" + pod.containers[i].name,
         HostPath("/var/lib/kubelet/emulator/cpu/" + pod.namespace + "/" + pod.name + "/" + pod.containers[i].name,
                  "DirectoryOrCreate"))
  }

  lemma {:induction false} OwnVolumesTo(pod: Pod, starter: string, m: nat)
    requires m <= |pod.containers|
    ensures var added := AddedVolumes(pod, starter, m);
      && |added| == m + 2 && added[..2] == PinningVolumes(starter)
      && forall i | 0 <= i < m :: added[i + 2] == CpuVolume(pod, pod.containers[i])
  {
    if m > 0 {
      OwnVolumesTo(pod, starter, m - 1);
    }
  }

  lemma OwnVolumes(pod: Pod, starter: string)
    ensures AreOwnVolumes(AddedVolumes(pod, starter, |pod.containers|), pod, starter)
  {
    var added := AddedVolumes(pod, starter, |pod.containers|);
    OwnVolumesTo(pod, starter, |pod.containers|);
    assert added[0] == added[..2][0] && added[1] == added[..2][1];
    forall i | 0 <= i < |pod.containers| ensures added[i + 2] == Volume("cpu-" + pod.containers[i].name,
      HostPath("/var/lib/kubelet/emulator/cpu/" + pod.namespace + "/" + pod.name + "/" + pod.containers[i].name,
               "DirectoryOrCreate"))
    {
      assert added[i + 2] == CpuVolume(pod, pod.containers[i]);
    }
  }

  /** The volumes of an admitted pod: the webhook's own behind those it had, when a container
      is pinned and neither of the two names is taken. */
  lemma AdmittedVolumes(pod: Pod, quotas: string, configs: Option<seq<PoolConfig>>, starter: string, response: Response,
                        after: Pod)
    requires MayAnswer(pod, quotas, configs, starter, response) && response.Allowed?
    requires Apply(pod, response.patches) == Some(after)
    ensures if (exists i: nat :: MustPin(pod, i)) && !UsesName(pod, "hostbin") && !UsesName(pod, "podinfo")
            then exists volumes :: AreOwnVolumes(volumes, pod, starter) && after.volumes == Some(Items(pod.volumes) + volumes)
            else after.volumes == pod.volumes
  {
    var a := AllowedIsAdmission(pod, quotas, configs, starter, response);
    PodEffect(a);
    PinsOneExactly(pod, a.poolRequests, |pod.containers|);
    OwnVolumes(pod, starter);
    assert AddsVolumes(pod, a.poolRequests) <==>
      (exists i: nat :: MustPin(pod, i)) && !UsesName(pod, "hostbin") && !UsesName(pod, "podinfo");
  }
}
