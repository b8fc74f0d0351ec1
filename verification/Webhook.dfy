/** The admission webhook: the JSON patch it answers with for a pod. */
module Webhook {
  import opened Wrappers
  import opened Annotation
  import opened AnnotationCheck
  import opened ArgsText
  import opened CfsLimit
  import opened GoText
  import opened PodPatch
  import opened PoolRequests
  import opened Pools

  const CPU_POOLS := "CPU_POOLS"
  const CONTAINER_NAME := "CONTAINER_NAME"
  const PODINFO := "podinfo"
  const HOSTBIN := "hostbin"
  const CPU_DIRECTORY := "/sys/devices/system/cpu"
  const EMULATOR_DIRECTORY := "/var/lib/kubelet/emulator/cpu/"

  function CpuVolumeName(container: string): string {
    "cpu-" + container
  }

  predicate HasEnv(c: Container, name: string) {
    exists k | 0 <= k < |Items(c.env)| :: Items(c.env)[k].name == name
  }

  predicate HasMount(c: Container, name: string) {
    exists k | 0 <= k < |Items(c.mounts)| :: Items(c.mounts)[k].name == name
  }

  predicate HasVolume(pod: Pod, name: string) {
    exists k | 0 <= k < |Items(pod.volumes)| :: Items(pod.volumes)[k].name == name
  }

  function RequestsOf(poolRequests: PoolRequestMap, name: string): Requests {
    if name in poolRequests then poolRequests[name] else NO_REQUESTS
  }

  // ---- The patches of one container ----

  function LimitPatches(i: nat, total: int): seq<Patch> {
    if total > 0 then
      [InContainer(i, Replace, CpuLimit, Quantity(Itoa(total) + "m")), InContainer(i, Replace, CpuRequest, Quantity("0m"))]
    else []
  }

  /** The webhook's own volume mounts. */
  function PinningMounts(starter: string, name: string): seq<Mount> {
    [Mount(PODINFO, "/etc/podinfo", true, ""),
     Mount(HOSTBIN, starter, true, ""),
     Mount(CpuVolumeName(name), CPU_DIRECTORY, true, "HostToContainer")]
  }

  /** The first variable of an absent or empty list, or one more. */
  function EnvPatch(i: nat, c: Container, follows: bool, v: EnvVar): Patch {
    if follows || Items(c.env) != [] then InContainer(i, Add, EnvEnd, OneEnv(v)) else InContainer(i, Add, Env, EnvList([v]))
  }

  /** The arguments take over the command, unless the annotation names the processes. */
  predicate WrapsCommand(c: Container, annotated: bool) {
    Items(c.command) != [] && !annotated
  }

  function PinningPatches(i: nat, c: Container, annotated: bool, starter: string): seq<Patch> {
    if HasMount(c, PODINFO) then [] else
      var mounts := PinningMounts(starter, c.name);
      [InContainer(i, Add, MountsEnd, OneMount(mounts[0])),
       InContainer(i, Add, MountsEnd, OneMount(mounts[1])),
       InContainer(i, Add, MountsEnd, OneMount(mounts[2])),
       EnvPatch(i, c, false, EnvVar(CONTAINER_NAME, c.name)),
       InContainer(i, Add, Command, Words([starter]))]
      + if WrapsCommand(c, annotated)
        then [InContainer(i, Add, Args, Text(WrappedArgs(Items(c.command), Items(c.args))))] else []
  }

  function EnvPatches(i: nat, c: Container, requests: Requests, follows: bool): seq<Patch> {
    if HasEnv(c, CPU_POOLS) then [] else [EnvPatch(i, c, follows, EnvVar(CPU_POOLS, CpuPools(requests)))]
  }

  /** The container is started through the process starter. */
  predicate IsPinned(c: Container, requests: Requests, annotated: bool) {
    annotated || ((requests.exclusive > 0 || requests.cloudphone > 0) && Items(c.command) != [])
  }

  predicate UsesPools(requests: Requests) {
    requests.shared > 0 || requests.exclusive > 0 || requests.cloudphone > 0
  }

  function ContainerPatches(i: nat, c: Container, requests: Requests, total: int, annotated: bool, starter: string): seq<Patch> {
    var pinned := IsPinned(c, requests, annotated);
    LimitPatches(i, total)
    + (if pinned then PinningPatches(i, c, annotated, starter) else [])
    + (if UsesPools(requests) then EnvPatches(i, c, requests, pinned) else [])
  }

  /** patchCPULimit */
  method PatchCPULimit(total: nat, patchList: seq<Patch>, i: nat) returns (patches: seq<Patch>)
    requires total > 0
    ensures patches == patchList + LimitPatches(i, total)
  {
    patches := patchList + [InContainer(i, Replace, CpuLimit, Quantity(Itoa(total) + "m"))];
    patches := patches + [InContainer(i, Replace, CpuRequest, Quantity("0m"))];
  }

  /** setRequestLimit */
  method SetRequestLimit(requests: Requests, quotas: string, configs: Option<seq<PoolConfig>>, patchList: seq<Patch>, i: nat)
    returns (patches: seq<Patch>)
    ensures exists total :: IsCfsLimit(requests, quotas, configs, total) && patches == patchList + LimitPatches(i, total)
  {
    var totalCFSLimit := ComputeCfsLimit(requests, quotas, configs);
    patches := patchList;
    if totalCFSLimit > 0 {
      patches := PatchCPULimit(totalCFSLimit, patchList, i);
    }
    assert patches == patchList + LimitPatches(i, totalCFSLimit);
  }

  /** patchContainerEnv */
  method PatchContainerEnv(requests: Requests, envPatched: bool, patchList: seq<Patch>, i: nat, c: Container)
    returns (patches: seq<Patch>)
    ensures patches == patchList + EnvPatches(i, c, requests, envPatched)
  {
    patches := patchList;
    for k := 0 to |Items(c.env)|
      invariant forall j | 0 <= j < k :: Items(c.env)[j].name != CPU_POOLS
    {
      if Items(c.env)[k].name == CPU_POOLS {
        return;
      }
    }
    var poolStr := CpuPools(requests);
    var v := EnvVar(CPU_POOLS, poolStr);
    if envPatched || |Items(c.env)| > 0 {
      patches := patches + [InContainer(i, Add, EnvEnd, OneEnv(v))];
    } else {
      patches := patches + [InContainer(i, Add, Env, EnvList([v]))];
    }
  }

  /** patchContainerForPinning */
  method PatchContainerForPinning(annotated: bool, starter: string, patchList: seq<Patch>, i: nat, c: Container)
    returns (patches: seq<Patch>)
    ensures patches == patchList + PinningPatches(i, c, annotated, starter)
  {
    patches := patchList;
    for k := 0 to |Items(c.mounts)|
      invariant forall j | 0 <= j < k :: Items(c.mounts)[j].name != PODINFO
    {
      if Items(c.mounts)[k].name == PODINFO {
        return;
      }
    }
    var podinfo := Mount(PODINFO, "/etc/podinfo", true, "");
    patches := patches + [InContainer(i, Add, MountsEnd, OneMount(podinfo))];
    var hostbin := Mount(HOSTBIN, starter, true, "");
    patches := patches + [InContainer(i, Add, MountsEnd, OneMount(hostbin))];
    var cpu := Mount("cpu-" + c.name, CPU_DIRECTORY, true, "HostToContainer");
    patches := patches + [InContainer(i, Add, MountsEnd, OneMount(cpu))];
    var v := EnvVar(CONTAINER_NAME, c.name);
    if |Items(c.env)| > 0 {
      patches := patches + [InContainer(i, Add, EnvEnd, OneEnv(v))];
    } else {
      patches := patches + [InContainer(i, Add, Env, EnvList([v]))];
    }
    patches := patches + [InContainer(i, Add, Command, Words([starter]))];
    if |Items(c.command)| > 0 && !annotated {
      var args := "[ \"" + Join(Items(c.command), "\",\"") + "\" ";
      if |Items(c.args)| > 0 {
        args := args + (",\"" + Join(Items(c.args), "\",\"") + "\"");
      }
      args := args + "]";
      TextParts(Items(c.command), Items(c.args));
      assert args == WrappedArgs(Items(c.command), Items(c.args));
      patches := patches + [InContainer(i, Add, Args, Text(args))];
    }
  }

  lemma TextParts(command: seq<string>, args: seq<string>)
    ensures args == [] ==> "[ \"" + Join(command, NEXT) + "\" " + "" + "]" == "[ \"" + Join(command, NEXT) + "\" " + "]"
  {
    var front := "[ \"" + Join(command, NEXT) + "\" ";
    assert front + "" == front;
  }

  // ---- The volumes ----

  function PinningVolumes(starter: string): seq<Volume> {
    [Volume(PODINFO, PodAnnotations), Volume(HOSTBIN, HostPath(starter, ""))]
  }

  function CpuVolume(pod: Pod, c: Container): Volume {
    Volume(CpuVolumeName(c.name),
           HostPath(EMULATOR_DIRECTORY + pod.namespace + "/" + pod.name + "/" + c.name, "DirectoryOrCreate"))
  }

  /** The volumes that the webhook adds for the first m containers. */
  function AddedVolumes(pod: Pod, starter: string, m: nat): seq<Volume>
    requires m <= |pod.containers|
  {
    if m == 0 then PinningVolumes(starter) else AddedVolumes(pod, starter, m - 1) + [CpuVolume(pod, pod.containers[m - 1])]
  }

  function VolumePatches(volumes: seq<Volume>): seq<Patch> {
    seq(|volumes|, k requires 0 <= k < |volumes| => AddVolume(volumes[k]))
  }

  /** patchVolumesForPinning */
  method PatchVolumesForPinning(patchList: seq<Patch>, pod: Pod, starter: string) returns (patches: seq<Patch>)
    ensures patches == patchList + VolumePatches(AddedVolumes(pod, starter, |pod.containers|))
  {
    patches := patchList + [AddVolume(Volume(PODINFO, PodAnnotations))];
    patches := patches + [AddVolume(Volume(HOSTBIN, HostPath(starter, "")))];
    for m := 0 to |pod.containers|
      invariant patches == patchList + VolumePatches(AddedVolumes(pod, starter, m))
    {
      patches := patches + [AddVolume(CpuVolume(pod, pod.containers[m]))];
    }
  }

  // ---- The whole pod ----

  ghost predicate DistinctNames(containers: seq<Container>) {
    forall i, j | 0 <= i < j < |containers| :: containers[i].name != containers[j].name
  }

  /** The entry of a container is there when it has pool resources, and reads them. */
  ghost predicate RequestsRead(poolRequests: PoolRequestMap, c: Container) {
    && (c.name in poolRequests <==> HasPool(c.limits.Keys))
    && Reads(RequestsOf(poolRequests, c.name), c.limits, c.limits.Keys)
  }

  /** getCPUPoolRequests, for pods whose container names are unique. */
  method GetCPUPoolRequests(containers: seq<Container>) returns (poolRequests: PoolRequestMap)
    requires DistinctNames(containers)
    ensures forall i | 0 <= i < |containers| :: RequestsRead(poolRequests, containers[i])
    ensures forall name | name in poolRequests :: exists i :: 0 <= i < |containers| && containers[i].name == name
  {
    poolRequests := map[];
    for i := 0 to |containers|
      invariant forall j | 0 <= j < i :: RequestsRead(poolRequests, containers[j])
      invariant forall name | name in poolRequests :: exists j :: 0 <= j < i && containers[j].name == name
    {
      var requests, found := ReadLimits(containers[i].limits);
      ghost var before := poolRequests;
      if found {
        poolRequests := poolRequests[containers[i].name := requests];
      }
      assert RequestsRead(poolRequests, containers[i]);
      forall j | 0 <= j < i ensures RequestsRead(poolRequests, containers[j]) {
        assert RequestsRead(before, containers[j]);
      }
    }
  }

  /** The entries of the annotation by name; none without an annotation. */
  function Annotated(pod: Pod): map<string, AnnotatedContainer> {
    if pod.annotation.None? then map[] else ByName(pod.annotation.value.entries, |pod.annotation.value.entries|)
  }

  /** The annotation, if there is one, can be decoded and fits the pool requests. */
  predicate AnnotationFits(pod: Pod, poolRequests: PoolRequestMap) {
    pod.annotation.Some? ==>
      && pod.annotation.value.wellFormed
      && (forall name | name in Annotated(pod) :: Faultless(Annotated(pod)[name]))
      && forall name | name in Annotated(pod) :: ContainerAccepted(poolRequests, name, Annotated(pod)[name].processes)
  }

  function RequestsAt(pod: Pod, poolRequests: PoolRequestMap, i: nat): Requests
    requires i < |pod.containers|
  {
    RequestsOf(poolRequests, pod.containers[i].name)
  }

  predicate AnnotatedAt(pod: Pod, i: nat)
    requires i < |pod.containers|
  {
    pod.containers[i].name in Annotated(pod)
  }

  predicate PinnedAt(pod: Pod, poolRequests: PoolRequestMap, i: nat)
    requires i < |pod.containers|
  {
    IsPinned(pod.containers[i], RequestsAt(pod, poolRequests, i), AnnotatedAt(pod, i))
  }

  function PatchesAt(pod: Pod, poolRequests: PoolRequestMap, total: int, starter: string, i: nat): seq<Patch>
    requires i < |pod.containers|
  {
    ContainerPatches(i, pod.containers[i], RequestsAt(pod, poolRequests, i), total, AnnotatedAt(pod, i), starter)
  }

  /** The patches of the first m containers. */
  function ContainersPatches(pod: Pod, poolRequests: PoolRequestMap, totals: seq<int>, starter: string, m: nat): seq<Patch>
    requires m <= |pod.containers| && m <= |totals|
  {
    if m == 0 then [] else
      ContainersPatches(pod, poolRequests, totals, starter, m - 1) + PatchesAt(pod, poolRequests, totals[m - 1], starter, m - 1)
  }

  /** One of the first m containers is pinned. */
  predicate PinsOne(pod: Pod, poolRequests: PoolRequestMap, m: nat)
    requires m <= |pod.containers|
  {
    m > 0 && (PinsOne(pod, poolRequests, m - 1) || PinnedAt(pod, poolRequests, m - 1))
  }

  /** Volumes are added with the first container that is pinned. */
  predicate AddsVolumes(pod: Pod, poolRequests: PoolRequestMap) {
    PinsOne(pod, poolRequests, |pod.containers|) && !HasVolume(pod, HOSTBIN) && !HasVolume(pod, PODINFO)
  }

  function PodPatches(pod: Pod, poolRequests: PoolRequestMap, totals: seq<int>, starter: string): seq<Patch>
    requires |totals| == |pod.containers|
  {
    ContainersPatches(pod, poolRequests, totals, starter, |pod.containers|)
    + if AddsVolumes(pod, poolRequests) then VolumePatches(AddedVolumes(pod, starter, |pod.containers|)) else []
  }

  datatype Response = Denied | Allowed(patches: seq<Patch>)

  ghost predicate LimitAt(pod: Pod, poolRequests: PoolRequestMap, quotas: string, configs: Option<seq<PoolConfig>>, total: int, i: nat)
    requires i < |pod.containers|
  {
    IsCfsLimit(RequestsAt(pod, poolRequests, i), quotas, configs, total)
  }

  /** CFS limits computed for the first m containers. */
  ghost predicate AreCfsLimits(pod: Pod, poolRequests: PoolRequestMap, quotas: string, configs: Option<seq<PoolConfig>>,
                               totals: seq<int>, m: nat)
    requires m <= |pod.containers| && m <= |totals|
  {
    m > 0 ==>
      && AreCfsLimits(pod, poolRequests, quotas, configs, totals, m - 1)
      && LimitAt(pod, poolRequests, quotas, configs, totals[m - 1], m - 1)
  }

  /** An answer to a pod, for some CFS limits: denied when the annotation does not fit or
      pins nothing, and otherwise the patches of all containers and volumes. */
  ghost predicate Answers(pod: Pod, poolRequests: PoolRequestMap, quotas: string, configs: Option<seq<PoolConfig>>,
                          starter: string, response: Response)
  {
    if !AnnotationFits(pod, poolRequests) || (pod.annotation.Some? && !PinsOne(pod, poolRequests, |pod.containers|))
    then response == Denied
    else exists totals: seq<int> ::
      && |totals| == |pod.containers| && AreCfsLimits(pod, poolRequests, quotas, configs, totals, |totals|)
      && response == Allowed(PodPatches(pod, poolRequests, totals, starter))
  }

  /** Every container is read, and nothing else is. */
  ghost predicate AllRead(poolRequests: PoolRequestMap, containers: seq<Container>) {
    && (forall i | 0 <= i < |containers| :: RequestsRead(poolRequests, containers[i]))
    && (forall name | name in poolRequests :: exists i :: 0 <= i < |containers| && containers[i].name == name)
  }

  /** mutatePods for a decoded pod: the answer for some reading of the pool requests. */
  method MutatePods(pod: Pod, quotas: string, configs: Option<seq<PoolConfig>>, starter: string) returns (response: Response)
    requires DistinctNames(pod.containers)
    ensures exists poolRequests ::
      AllRead(poolRequests, pod.containers) && Answers(pod, poolRequests, quotas, configs, starter, response)
  {
    var poolRequests := GetCPUPoolRequests(pod.containers);
    response := AnswerPod(pod, poolRequests, quotas, configs, starter);
    assert AllRead(poolRequests, pod.containers);
  }

  /** mutatePods once the pool requests are read. */
  method AnswerPod(pod: Pod, poolRequests: PoolRequestMap, quotas: string, configs: Option<seq<PoolConfig>>, starter: string)
    returns (response: Response)
    ensures Answers(pod, poolRequests, quotas, configs, starter, response)
  {
    if pod.annotation.Some? {
      var fits := CheckAnnotation(pod, poolRequests);
      if !fits {
        return Denied;
      }
    }
    var patchList, pinningPatchAdded := PatchContainers(pod, poolRequests, quotas, configs, starter);
    ghost var totals :| |totals| == |pod.containers| && AreCfsLimits(pod, poolRequests, quotas, configs, totals, |totals|)
                        && patchList == ContainersPatches(pod, poolRequests, totals, starter, |pod.containers|);
    if pinningPatchAdded {
      if !HasVolume(pod, HOSTBIN) && !HasVolume(pod, PODINFO) {
        patchList := PatchVolumesForPinning(patchList, pod, starter);
      }
    } else if pod.annotation.Some? {
      return Denied;
    }
    assert patchList == PodPatches(pod, poolRequests, totals, starter);
    response := Allowed(patchList);
  }

  /** The loop over the containers. */
  method PatchContainers(pod: Pod, poolRequests: PoolRequestMap, quotas: string, configs: Option<seq<PoolConfig>>, starter: string)
    returns (patchList: seq<Patch>, pinningPatchAdded: bool)
    ensures exists totals: seq<int> ::
      && |totals| == |pod.containers| && AreCfsLimits(pod, poolRequests, quotas, configs, totals, |totals|)
      && patchList == ContainersPatches(pod, poolRequests, totals, starter, |pod.containers|)
    ensures pinningPatchAdded <==> PinsOne(pod, poolRequests, |pod.containers|)
  {
    ghost var totals: seq<int> := [];
    patchList, pinningPatchAdded := [], false;
    for i := 0 to |pod.containers|
      invariant |totals| == i && AreCfsLimits(pod, poolRequests, quotas, configs, totals, i)
      invariant patchList == ContainersPatches(pod, poolRequests, totals, starter, i)
      invariant pinningPatchAdded <==> PinsOne(pod, poolRequests, i)
    {
      ghost var before := patchList;
      var pinned: bool;
      patchList, pinned := PatchContainer(pod, poolRequests, quotas, configs, starter, patchList, i);
      ghost var total :| LimitAt(pod, poolRequests, quotas, configs, total, i)
                         && patchList == before + PatchesAt(pod, poolRequests, total, starter, i);
      PatchesOn(pod, poolRequests, totals, total, starter);
      MoreTotals(pod, poolRequests, quotas, configs, totals, total, i);
      totals := totals + [total];
      pinningPatchAdded := pinningPatchAdded || pinned;
    }
  }

  lemma {:induction false} MorePatches(pod: Pod, poolRequests: PoolRequestMap, totals: seq<int>, longer: seq<int>, starter: string, m: nat)
    requires m <= |pod.containers| && m <= |totals| && totals <= longer
    ensures ContainersPatches(pod, poolRequests, longer, starter, m) == ContainersPatches(pod, poolRequests, totals, starter, m)
  {
    if m > 0 {
      MorePatches(pod, poolRequests, totals, longer, starter, m - 1);
      assert longer[m - 1] == totals[m - 1];
    }
  }

  lemma PatchesOn(pod: Pod, poolRequests: PoolRequestMap, totals: seq<int>, total: int, starter: string)
    requires |totals| < |pod.containers|
    ensures ContainersPatches(pod, poolRequests, totals + [total], starter, |totals| + 1)
         == ContainersPatches(pod, poolRequests, totals, starter, |totals|) + PatchesAt(pod, poolRequests, total, starter, |totals|)
  {
    MorePatches(pod, poolRequests, totals, totals + [total], starter, |totals|);
  }

  lemma {:induction false} MoreTotals(pod: Pod, poolRequests: PoolRequestMap, quotas: string, configs: Option<seq<PoolConfig>>,
                                      totals: seq<int>, total: int, m: nat)
    requires m <= |pod.containers| && m <= |totals| && AreCfsLimits(pod, poolRequests, quotas, configs, totals, m)
    ensures AreCfsLimits(pod, poolRequests, quotas, configs, totals + [total], m)
  {
    if m > 0 {
      MoreTotals(pod, poolRequests, quotas, configs, totals, total, m - 1);
      assert (totals + [total])[m - 1] == totals[m - 1];
    }
  }

  method CheckAnnotation(pod: Pod, poolRequests: PoolRequestMap) returns (fits: bool)
    requires pod.annotation.Some?
    ensures fits <==> AnnotationFits(pod, poolRequests)
  {
    var annotation := new CPUAnnotation();
    var error := annotation.Decode(pod.annotation.value.entries, pod.annotation.value.wellFormed);
    assert annotation.containers == Annotated(pod);
    if error.Some? {
      return false;
    }
    var names := annotation.Containers();
    fits := ValidateAnnotation(poolRequests, annotation, names);
  }

  /** The body of the loop over the containers. */
  method PatchContainer(pod: Pod, poolRequests: PoolRequestMap, quotas: string, configs: Option<seq<PoolConfig>>,
                        starter: string, patchList: seq<Patch>, i: nat)
    returns (patches: seq<Patch>, pinningPatchNeeded: bool)
    requires i < |pod.containers|
    ensures pinningPatchNeeded == PinnedAt(pod, poolRequests, i)
    ensures exists total :: LimitAt(pod, poolRequests, quotas, configs, total, i)
                            && patches == patchList + PatchesAt(pod, poolRequests, total, starter, i)
  {
    var c := pod.containers[i];
    var requests := RequestsOf(poolRequests, c.name);
    var annotated := c.name in Annotated(pod);
    patches := SetRequestLimit(requests, quotas, configs, patchList, i);
    ghost var total :| IsCfsLimit(requests, quotas, configs, total) && patches == patchList + LimitPatches(i, total);
    pinningPatchNeeded := NeedsPinning(requests, c, annotated);
    var containerEnvPatched := false;
    ghost var pinning: seq<Patch>, env: seq<Patch> := [], [];
    if pinningPatchNeeded {
      patches := PatchContainerForPinning(annotated, starter, patches, i, c);
      pinning := PinningPatches(i, c, annotated, starter);
      containerEnvPatched := true;
    }
    if requests.shared > 0 || requests.exclusive > 0 || requests.cloudphone > 0 {
      patches := PatchContainerEnv(requests, containerEnvPatched, patches, i, c);
      env := EnvPatches(i, c, requests, containerEnvPatched);
    }
    Grouped(patchList, LimitPatches(i, total), pinning, env, patches);
    assert LimitAt(pod, poolRequests, quotas, configs, total, i);
  }

  lemma Grouped(list: seq<Patch>, limits: seq<Patch>, pinning: seq<Patch>, env: seq<Patch>, all: seq<Patch>)
    requires all == list + limits + pinning + env || (pinning == env == [] && all == list + limits)
             || (env == [] && all == list + limits + pinning) || (pinning == [] && all == list + limits + env)
    ensures all == list + (limits + pinning + env)
  {
  }

  method NeedsPinning(requests: Requests, c: Container, annotated: bool) returns (pinningPatchNeeded: bool)
    ensures pinningPatchNeeded == IsPinned(c, requests, annotated)
  {
    pinningPatchNeeded := annotated;
    if requests.exclusive > 0 {
      if !(|Items(c.command)| == 0 && !pinningPatchNeeded) {
        pinningPatchNeeded := true;
      }
    }
    if requests.cloudphone > 0 {
      if !(|Items(c.command)| == 0 && !pinningPatchNeeded) {
        pinningPatchNeeded := true;
      }
    }
  }
}
