/** The four programs together: from the webhook's patch, the plugins' answers and a
    successful adjustment of the pod to the start of the container's processes. */
module EndToEnd {
  import opened Wrappers
  import opened CpuSets
  import opened Annotation
  import opened CgroupNode
  import opened CgroupTree
  import opened DevicePlugin
  import opened PodPatch
  import opened PoolRequests
  import opened WebhookEffect
  import CgroupRuns
  import CorrectCpuset
  import Handshake
  import PS = ProcessStarter
  import Webhook

  /** The webhook patched the container of the request. */
  ghost predicate IsPatched(q: Handshake.Request, s: Setting, c: Container) {
    c.limits == q.limits && Reads(s.requests, c.limits, c.limits.Keys) && !Webhook.HasEnv(c, Webhook.CPU_POOLS)
  }

  /** The value of CPU_POOLS in the patched container. */
  ghost predicate IsCpuPools(s: Setting, c: Container, cpuPools: string) {
    EnvVar(Webhook.CPU_POOLS, cpuPools) in Items(s.Mutated(c).env)
  }

  lemma NoneCalled(c: Container, name: string)
    requires !Webhook.HasEnv(c, name)
    ensures forall v | v in Items(c.env) :: v.name != name
  {
  }

  /** There is exactly one: that of the container's pools. */
  lemma CpuPoolsValue(q: Handshake.Request, s: Setting, c: Container, cpuPools: string)
    requires IsPatched(q, s, c) && Webhook.UsesPools(s.requests)
    ensures IsCpuPools(s, c, cpuPools) <==> cpuPools == CpuPools(s.requests)
  {
    s.PinnedKeepsPools(c);
    var pinned := s.Pinned(s.Limited(c));
    var own := EnvVar(Webhook.CPU_POOLS, CpuPools(s.requests));
    assert Items(s.Mutated(c).env) == Items(pinned.env) + [own];
    assert own in Items(pinned.env) + [own];
    NoneCalled(pinned, Webhook.CPU_POOLS);
  }

  /** Container k of the node is that of the request, and attempt a has adjusted its pod. */
  ghost predicate IsAdjusted(q: Handshake.Request, sys: CgroupRuns.System, k: nat, a: Attempt) {
    && sys.Valid() && k < |sys.jobs| && sys.jobs[k].i < |sys.jobs[k].pod.specs| && sys.Lists(sys.jobs[k].pod)
    && sys.node.setter == q.Setter() && sys.jobs[k].pod.uid == q.podUID
    && sys.jobs[k].pod.specs[sys.jobs[k].i] == Spec(q.name, q.requested)
    && a.IsFor(sys.node, sys.jobs[k].pod, a.names) && a.Gathered(sys.jobs[k].i) && a.Expected() == Done
  }

  /** After a successful attempt the leaf holds a set that the setter may want, if it is not
      empty. */
  lemma LeafHolds(q: Handshake.Request, sys: CgroupRuns.System, k: nat, a: Attempt, before: map<Path, CPUSet>)
    returns (d: CorrectCpuset.Decision)
    requires IsAdjusted(q, sys, k, a)
    ensures sys.Started(k) && Handshake.AsContainer(q).May(d) && d.Decided?
    ensures var after := before + a.AllWrites();
      d.cgroup != {} ==> sys.Leaf(k) in after && after[sys.Leaf(k)] == d.cgroup
  {
    var i := sys.jobs[k].i;
    d := a.decisions[i];
    assert sys.node.MayDecide(a.pod, i, d);
    assert sys.node.ContainerOf(a.pod, i) == Handshake.AsContainer(q);
    sys.SuccessMeaning(a, k, before);
  }

  /** The starter is released as soon as it looks at the leaf. */
  ghost predicate IsReleasedAt(sys: CgroupRuns.System, k: nat, after: map<Path, CPUSet>, cpuPools: string, env: Env)
    requires sys.Valid() && sys.Started(k)
  {
    && sys.Leaf(k) in after
    && forall looks: seq<CPUSet> | after[sys.Leaf(k)] in looks :: PS.IsReleased(cpuPools, env, looks)
  }

  lemma ReleasedBy(cpuPools: string, env: Env, cpus: CPUSet)
    requires PS.Awaited(cpuPools, env) == Some(cpus)
    ensures forall looks: seq<CPUSet> | cpus in looks :: PS.IsReleased(cpuPools, env, looks)
  {
    forall looks: seq<CPUSet> | cpus in looks ensures PS.IsReleased(cpuPools, env, looks) {
      var i :| 0 <= i < |looks| && looks[i] == cpus;
    }
  }

  lemma ReleasedWhenAwaited(q: Handshake.Request, requests: Requests, env: Env, sys: CgroupRuns.System, k: nat, a: Attempt,
                            before: map<Path, CPUSet>)
    requires IsAdjusted(q, sys, k, a)
    requires forall d | Handshake.AsContainer(q).May(d) :: Handshake.IsAwaited(requests, env, d) && d.cgroup != {}
    ensures sys.Started(k) && IsReleasedAt(sys, k, before + a.AllWrites(), CpuPools(requests), env)
  {
    var d := LeafHolds(q, sys, k, a, before);
    assert Handshake.IsAwaited(requests, env, d);
    ReleasedBy(CpuPools(requests), env, d.cgroup);
  }

  /** An exclusive or shared container on which the programs agree. */
  ghost predicate IsOrdinary(q: Handshake.Request, env: Env) {
    && q.Valid() && q.Ordinary() && (q.Asks(CorrectCpuset.ExclusiveKind) || q.Asks(CorrectCpuset.SharedKind))
    && q.IsEnv(env) && Handshake.Agreed(q)
  }

  /** A cloudphone container on which they agree. */
  ghost predicate IsAgreedCloudphone(q: Handshake.Request, r: string, env: Env) {
    && q.Valid() && Handshake.IsCloudphone(q, r) && Handshake.OnlyPoolResource(q, r) && q.IsEnv(env)
    && Handshake.NumaSet(q, r) != {} && Handshake.CoresAgree(q, r)
  }

  lemma AwaitedNotEmpty(requests: Requests, env: Env, cpus: CPUSet, d: CorrectCpuset.Decision)
    requires PS.Awaited(CpuPools(requests), env) == Some(cpus) && cpus != {} && Handshake.IsAwaited(requests, env, d)
    ensures d.cgroup != {}
  {
  }

  /** Exclusive and shared containers: once the worker has adjusted the pod, after whatever
      failed attempts, a starter that looks at the container's leaf in time is released. */
  lemma OrdinaryReleased(q: Handshake.Request, s: Setting, c: Container, cpuPools: string, env: Env,
                         sys: CgroupRuns.System, k: nat, a: Attempt, before: map<Path, CPUSet>)
    requires IsOrdinary(q, env) && IsPatched(q, s, c) && IsCpuPools(s, c, cpuPools) && IsAdjusted(q, sys, k, a)
    ensures cpuPools == CpuPools(s.requests)
    ensures sys.Started(k) && IsReleasedAt(sys, k, before + a.AllWrites(), cpuPools, env)
  {
    Handshake.AmountsPositive(q, s.requests);
    CpuPoolsValue(q, s, c, cpuPools);
    Handshake.OrdinaryHandshake(q, s.requests, env);
    Handshake.WaitsForSum(q, s.requests, env);
    forall d | Handshake.AsContainer(q).May(d) ensures Handshake.IsAwaited(s.requests, env, d) && d.cgroup != {} {
      AwaitedNotEmpty(s.requests, env, Handshake.SharedPart(q) + Handshake.GrantedPart(q), d);
    }
    ReleasedWhenAwaited(q, s.requests, env, sys, k, a, before);
  }

  /** Likewise for cloudphone containers. */
  lemma CloudphoneReleased(q: Handshake.Request, r: string, s: Setting, c: Container, cpuPools: string, env: Env,
                           sys: CgroupRuns.System, k: nat, a: Attempt, before: map<Path, CPUSet>)
    requires IsAgreedCloudphone(q, r, env) && IsPatched(q, s, c) && IsCpuPools(s, c, cpuPools) && IsAdjusted(q, sys, k, a)
    ensures cpuPools == CpuPools(s.requests)
    ensures sys.Started(k) && IsReleasedAt(sys, k, before + a.AllWrites(), cpuPools, env)
  {
    Handshake.AmountsPositive(q, s.requests);
    assert r in q.kinds && q.kinds[r] == CorrectCpuset.CloudphoneKind;
    CpuPoolsValue(q, s, c, cpuPools);
    Handshake.CloudphoneHandshake(q, s.requests, env, r);
    Handshake.CloudphoneWaits(q, s.requests, env, r);
    forall d | Handshake.AsContainer(q).May(d) ensures Handshake.IsAwaited(s.requests, env, d) && d.cgroup != {} {
      AwaitedNotEmpty(s.requests, env, Handshake.NumaSet(q, r), d);
    }
    ReleasedWhenAwaited(q, s.requests, env, sys, k, a, before);
  }

  ghost predicate SeesLeaf(sys: CgroupRuns.System, k: nat, after: map<Path, CPUSet>, looks: seq<CPUSet>) {
    sys.Valid() && sys.Started(k) && sys.Leaf(k) in after && after[sys.Leaf(k)] in looks
  }

  /** The whole way for such a container: the starter in the patched container, one of whose
      looks sees the leaf as the worker left it, starts the annotated processes on the CPUs
      that were granted and on the shared pool, or becomes the container's own program. */
  method OrdinaryStarts(ghost q: Handshake.Request, ghost s: Setting, ghost c: Container, ghost sys: CgroupRuns.System,
                        ghost k: nat, ghost a: Attempt, ghost before: map<Path, CPUSet>,
                        cpuPools: string, env: Env, looks: seq<CPUSet>,
                        containers: seq<AnnotatedContainer>, name: string, args: seq<string>)
    returns (outcome: PS.Outcome)
    requires IsOrdinary(q, env) && IsPatched(q, s, c) && IsCpuPools(s, c, cpuPools) && IsAdjusted(q, sys, k, a)
    requires |looks| == PS.POLL_LIMIT && SeesLeaf(sys, k, before + a.AllWrites(), looks) && name == q.name
    requires forall entry | entry in containers :: PS.Countable(entry.processes)
    ensures outcome != PS.GaveUp
    ensures PS.Runs(outcome, containers, name, PS.Cpus(List(Handshake.GrantedPart(q)), List(Handshake.SharedPart(q))), args)
  {
    OrdinaryReleased(q, s, c, cpuPools, env, sys, k, a, before);
    Handshake.HandedParts(q, s.requests, env);
    outcome := PS.Run(cpuPools, env, looks, containers, name, args);
  }
}
