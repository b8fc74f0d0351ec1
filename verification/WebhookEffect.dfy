/** What the webhook's patch makes of a pod, and what repeating it does. */
module WebhookEffect {
  import opened Wrappers
  import opened Annotation
  import opened AnnotationCheck
  import opened ArgsText
  import opened GoText
  import opened PodPatch
  import opened PoolRequests
  import opened Pools
  import opened Webhook

  // ---- One container ----

  predicate SameAmounts(a: Requests, b: Requests) {
    a.shared == b.shared && a.exclusive == b.exclusive && a.cloudphone == b.cloudphone
  }

  /** The containers differ at most in the values of the CPU limit and the CPU request. */
  predicate SameButLimits(c: Container, d: Container) {
    && d == c.(cpuLimit := d.cpuLimit, cpuRequest := d.cpuRequest)
    && d.cpuLimit.Some? == c.cpuLimit.Some? && d.cpuRequest.Some? == c.cpuRequest.Some?
  }

  /** The webhook's settings for one container. */
  datatype Setting = Setting(requests: Requests, total: int, annotated: bool, starter: string) {

    function Patches(i: nat, c: Container): seq<Patch> {
      ContainerPatches(i, c, requests, total, annotated, starter)
    }

    predicate Pins(c: Container) {
      IsPinned(c, requests, annotated)
    }

    /** The mounts and the new command are still to be added. */
    predicate PinsNow(c: Container) {
      Pins(c) && !HasMount(c, PODINFO)
    }

    predicate WrapsNow(c: Container) {
      PinsNow(c) && WrapsCommand(c, annotated)
    }

    predicate NamesPoolsNow(c: Container) {
      UsesPools(requests) && !HasEnv(c, CPU_POOLS)
    }

    /** The patch of the container applies: the limits it replaces exist, the mounts it
        appends to exist, the arguments are well-formed text, and so does the list of
        variables exist when a mount made elsewhere hides that it was not pinned yet. */
    predicate Applicable(c: Container) {
      && (total > 0 ==> c.cpuLimit.Some? && c.cpuRequest.Some?)
      && (PinsNow(c) ==> c.mounts.Some?)
      && (WrapsNow(c) ==> ReadStrings(WrappedArgs(Items(c.command), Items(c.args))).Some?)
      && (NamesPoolsNow(c) && Pins(c) && !PinsNow(c) ==> c.env.Some?)
    }

    function Limited(c: Container): Container {
      if total > 0 then c.(cpuLimit := Some(Itoa(total) + "m"), cpuRequest := Some("0m")) else c
    }

    function NewArgs(c: Container): Option<seq<string>> {
      if WrapsNow(c) then ReadStrings(WrappedArgs(Items(c.command), Items(c.args))) else c.args
    }

    /** A pinned container before its arguments are set. */
    function Started(c: Container): Container {
      c.(mounts := Some(Items(c.mounts) + PinningMounts(starter, c.name)),
         env := Some(Items(c.env) + [EnvVar(CONTAINER_NAME, c.name)]),
         command := Some([starter]))
    }

    function Pinned(c: Container): Container {
      if PinsNow(c) then Started(c).(args := NewArgs(c)) else c
    }

    function WithPools(c: Container): Container {
      if NamesPoolsNow(c) then c.(env := Some(Items(c.env) + [EnvVar(CPU_POOLS, CpuPools(requests))])) else c
    }

    /** What becomes of the container: new limits, the webhook's mounts and variables behind
        the original ones, and the starter as command. */
    function Mutated(c: Container): Container {
      WithPools(Pinned(Limited(c)))
    }

    lemma LimitEffect(i: nat, c: Container)
      ensures ApplyTo(c, LimitPatches(i, total))
           == if total > 0 && (c.cpuLimit.None? || c.cpuRequest.None?) then None else Some(Limited(c))
    {
      var patches := LimitPatches(i, total);
      if total > 0 {
        assert patches[..1] == [patches[0]] && patches[..1][..0] == [];
        assert ApplyTo(c, patches[..1]) == Change(c, Replace, CpuLimit, patches[0].value);
      }
    }

    /** One patch more. */
    lemma Then(c: Container, patches: seq<Patch>, p: Patch)
      requires p.InContainer? && forall k | 0 <= k < |patches| :: patches[k].InContainer?
      ensures ApplyTo(c, patches + [p])
           == match ApplyTo(c, patches) case None => None case Some(before) => Change(before, p.op, p.member, p.value)
    {
      assert (patches + [p])[..|patches|] == patches;
    }

    /** Three mounts are appended, or none can be. */
    lemma MountsEffect(i: nat, c: Container, a: Mount, b: Mount, d: Mount)
      ensures var patches := [InContainer(i, Add, MountsEnd, OneMount(a)), InContainer(i, Add, MountsEnd, OneMount(b)),
                              InContainer(i, Add, MountsEnd, OneMount(d))];
        ApplyTo(c, patches) == if c.mounts.None? then None else Some(c.(mounts := Some(c.mounts.value + [a, b, d])))
    {
      var p, q, r := InContainer(i, Add, MountsEnd, OneMount(a)), InContainer(i, Add, MountsEnd, OneMount(b)),
                     InContainer(i, Add, MountsEnd, OneMount(d));
      Then(c, [], p);
      Then(c, [p], q);
      Then(c, [p, q], r);
      assert [] + [p] == [p] && [p] + [q] == [p, q] && [p, q] + [r] == [p, q, r];
      if c.mounts.Some? {
        assert c.mounts.value + [a] + [b] + [d] == c.mounts.value + [a, b, d];
      }
    }

    /** A variable is put behind the ones that are there. */
    lemma EnvChange(i: nat, c: Container, d: Container, v: EnvVar)
      requires c.env == d.env
      ensures var p := EnvPatch(i, c, false, v);
        p.InContainer? && Change(d, p.op, p.member, p.value) == Some(d.(env := Some(Items(c.env) + [v])))
    {
      if Items(c.env) == [] {
        assert Items(c.env) + [v] == [v];
      }
    }

    predicate IsPinnable(c: Container) {
      c.mounts.Some? && (WrapsCommand(c, annotated) ==> ReadStrings(WrappedArgs(Items(c.command), Items(c.args))).Some?)
    }

    lemma PinningEffect(i: nat, c: Container)
      ensures ApplyTo(c, PinningPatches(i, c, annotated, starter))
           == if HasMount(c, PODINFO) then Some(c)
              else if !IsPinnable(c) then None
              else if WrapsCommand(c, annotated)
              then Some(Started(c).(args := ReadStrings(WrappedArgs(Items(c.command), Items(c.args)))))
              else Some(Started(c))
    {
      if !HasMount(c, PODINFO) {
        var ms := PinningMounts(starter, c.name);
        assert ms == [ms[0], ms[1], ms[2]];
        var mounts := [InContainer(i, Add, MountsEnd, OneMount(ms[0])), InContainer(i, Add, MountsEnd, OneMount(ms[1])),
                       InContainer(i, Add, MountsEnd, OneMount(ms[2]))];
        var env := EnvPatch(i, c, false, EnvVar(CONTAINER_NAME, c.name));
        var command := InContainer(i, Add, Command, Words([starter]));
        MountsEffect(i, c, ms[0], ms[1], ms[2]);
        StartedEffect(i, c, mounts, env, command);
        var front := mounts + [env] + [command];
        if WrapsCommand(c, annotated) {
          var args := InContainer(i, Add, Args, Text(WrappedArgs(Items(c.command), Items(c.args))));
          Then(c, front, args);
          assert PinningPatches(i, c, annotated, starter) == front + [args];
        } else {
          assert PinningPatches(i, c, annotated, starter) == front;
        }
      }
    }

    lemma StartedEffect(i: nat, c: Container, mounts: seq<Patch>, env: Patch, command: Patch)
      requires forall k | 0 <= k < |mounts| :: mounts[k].InContainer?
      requires ApplyTo(c, mounts) == if c.mounts.None? then None
                                     else Some(c.(mounts := Some(c.mounts.value + PinningMounts(starter, c.name))))
      requires env == EnvPatch(i, c, false, EnvVar(CONTAINER_NAME, c.name))
      requires command == InContainer(i, Add, Command, Words([starter]))
      ensures ApplyTo(c, mounts + [env] + [command]) == if c.mounts.None? then None else Some(Started(c))
    {
      Then(c, mounts, env);
      Then(c, mounts + [env], command);
      if c.mounts.Some? {
        EnvChange(i, c, ApplyTo(c, mounts).value, EnvVar(CONTAINER_NAME, c.name));
      }
    }

    /** The variable with the pools, decided by what the container was, is put behind what
        it has become. */
    lemma PoolsEffect(i: nat, c: Container, d: Container, follows: bool)
      requires if follows then true else c.env == d.env
      ensures ApplyTo(d, EnvPatches(i, c, requests, follows))
           == if HasEnv(c, CPU_POOLS) then Some(d)
              else if follows && d.env.None? then None
              else Some(d.(env := Some(Items(d.env) + [EnvVar(CPU_POOLS, CpuPools(requests))])))
    {
      if !HasEnv(c, CPU_POOLS) {
        var v := EnvVar(CPU_POOLS, CpuPools(requests));
        var p := EnvPatch(i, c, follows, v);
        Then(d, [], p);
        assert [] + [p] == EnvPatches(i, c, requests, follows);
        if !follows {
          EnvChange(i, c, d, v);
        }
      }
    }

    lemma LimitedAlike(i: nat, c: Container)
      ensures PinningPatches(i, c, annotated, starter) == PinningPatches(i, Limited(c), annotated, starter)
      ensures Pins(Limited(c)) == Pins(c) && HasMount(Limited(c), PODINFO) == HasMount(c, PODINFO)
      ensures HasEnv(Limited(c), CPU_POOLS) == HasEnv(c, CPU_POOLS)
    {
    }

    function PinningPart(i: nat, c: Container): (patches: seq<Patch>)
      ensures AllIn(patches, i)
    {
      if Pins(c) then PinningPatches(i, c, annotated, starter) else []
    }

    function PoolsPart(i: nat, c: Container): (patches: seq<Patch>)
      ensures AllIn(patches, i)
    {
      if UsesPools(requests) then EnvPatches(i, c, requests, Pins(c)) else []
    }

    lemma PinningStage(i: nat, c: Container)
      ensures ApplyTo(Limited(c), PinningPart(i, c))
           == if PinsNow(c) && !IsPinnable(c) then None else Some(Pinned(Limited(c)))
    {
      if Pins(c) {
        LimitedAlike(i, c);
        PinningEffect(i, Limited(c));
      }
    }

    lemma PoolsStage(i: nat, c: Container)
      ensures ApplyTo(Pinned(Limited(c)), PoolsPart(i, c))
           == if NamesPoolsNow(c) && Pins(c) && !PinsNow(c) && c.env.None? then None else Some(Mutated(c))
    {
      if UsesPools(requests) {
        PoolsEffect(i, c, Pinned(Limited(c)), Pins(c));
        PinnedKeepsPools(c);
      }
    }

    lemma PinnedKeepsPools(c: Container)
      ensures HasEnv(Pinned(Limited(c)), CPU_POOLS) == HasEnv(c, CPU_POOLS)
    {
      var d := Pinned(Limited(c));
      assert |CONTAINER_NAME| == 14 && |CPU_POOLS| == 9;
      if PinsNow(Limited(c)) {
        assert Items(d.env) == Items(c.env) + [EnvVar(CONTAINER_NAME, c.name)];
        if HasEnv(c, CPU_POOLS) {
          var k :| 0 <= k < |Items(c.env)| && Items(c.env)[k].name == CPU_POOLS;
          assert Items(d.env)[k].name == CPU_POOLS;
        }
      }
    }

    lemma ThreeStages(c: Container, i: nat, first: seq<Patch>, second: seq<Patch>, third: seq<Patch>)
      requires AllIn(first, i) && AllIn(second, i) && AllIn(third, i)
      ensures AllIn(first + second + third, i)
      ensures ApplyTo(c, first).None? ==> ApplyTo(c, first + second + third) == None
      ensures ApplyTo(c, first).Some? && ApplyTo(ApplyTo(c, first).value, second).None? ==>
        ApplyTo(c, first + second + third) == None
      ensures ApplyTo(c, first).Some? && ApplyTo(ApplyTo(c, first).value, second).Some? ==>
        ApplyTo(c, first + second + third) == ApplyTo(ApplyTo(ApplyTo(c, first).value, second).value, third)
    {
      ApplyToConcat(c, first, second);
      ApplyToConcat(c, first + second, third);
    }

    /** The patch of a container applies exactly under the stated condition, and makes the
        stated container of it. */
    lemma ContainerEffect(i: nat, c: Container)
      ensures AllIn(Patches(i, c), i)
      ensures ApplyTo(c, Patches(i, c)) == if Applicable(c) then Some(Mutated(c)) else None
    {
      assert Patches(i, c) == LimitPatches(i, total) + PinningPart(i, c) + PoolsPart(i, c);
      ThreeStages(c, i, LimitPatches(i, total), PinningPart(i, c), PoolsPart(i, c));
      LimitEffect(i, c);
      PinningStage(i, c);
      PoolsStage(i, c);
    }

    // ---- The container after the patch ----

    /** Every variable and mount the container had stays, in order and in front. */
    lemma KeepsOriginals(c: Container)
      ensures var after := Mutated(c);
        && after.name == c.name && after.limits == c.limits
        && Items(c.env) <= Items(after.env) && Items(c.mounts) <= Items(after.mounts)
        && (!PinsNow(c) ==> after.command == c.command && after.args == c.args && after.mounts == c.mounts)
    {
      var pinned := Pinned(Limited(c));
      assert Items(c.env) <= Items(pinned.env);
      assert Items(pinned.env) <= Items(Mutated(c).env);
    }

    lemma HasPodinfo(c: Container)
      ensures Pins(c) ==> HasMount(Mutated(c), PODINFO)
    {
      var after := Mutated(c);
      if PinsNow(c) {
        assert Items(after.mounts) == Items(c.mounts) + PinningMounts(starter, c.name);
        assert Items(after.mounts)[|Items(c.mounts)|].name == PODINFO;
      } else if HasMount(c, PODINFO) {
        assert after.mounts == c.mounts;
      }
    }

    lemma HasPools(c: Container)
      ensures UsesPools(requests) ==> HasEnv(Mutated(c), CPU_POOLS)
    {
      PinnedKeepsPools(c);
      var pinned := Pinned(Limited(c));
      if NamesPoolsNow(pinned) {
        assert Items(Mutated(c).env)[|Items(pinned.env)|].name == CPU_POOLS;
      }
    }

    lemma PinsAgain(c: Container)
      ensures Pins(Mutated(c)) == Pins(c)
    {
      assert Items(Some([starter])) != [];
    }

    /** The same container, computed with other amounts by pool and another total. */
    predicate IsAgain(again: Setting) {
      && again.annotated == annotated && again.starter == starter && (again.total > 0 <==> total > 0)
      && SameAmounts(requests, again.requests)
    }

    /** The container that the patch makes, with whatever limits, is only given new limits by
        a patch made for it. */
    lemma OnlyLimitsAgain(c: Container, d: Container, again: Setting)
      requires Applicable(c) && IsAgain(again) && SameButLimits(Mutated(c), d)
      ensures again.Applicable(d) && again.Mutated(d) == again.Limited(d) && again.Pins(d) == Pins(c)
      ensures SameButLimits(Mutated(c), again.Mutated(d))
    {
      HasPodinfo(c);
      HasPools(c);
      PinsAgain(c);
      assert HasMount(d, PODINFO) == HasMount(Mutated(c), PODINFO) && HasEnv(d, CPU_POOLS) == HasEnv(Mutated(c), CPU_POOLS);
      assert again.Pins(d) == Pins(Mutated(c));
      assert !again.PinsNow(d) && !again.NamesPoolsNow(d);
      assert !again.PinsNow(again.Limited(d)) && !again.NamesPoolsNow(again.Limited(d));
    }

    /** Whether the patch applies does not depend on the order of the limits either. */
    lemma ApplicableAgain(c: Container, again: Setting)
      requires IsAgain(again)
      ensures again.Applicable(c) == Applicable(c) && again.Pins(c) == Pins(c)
    {
    }
  }

  // ---- The whole pod ----

  /** A pod under admission, with what the webhook computes for it. */
  datatype Admission = Admission(pod: Pod, poolRequests: PoolRequestMap, totals: seq<int>, starter: string) {

    predicate Valid() {
      |totals| == |pod.containers|
    }

    function At(i: nat): Setting
      requires Valid() && i < |pod.containers|
    {
      Setting(RequestsAt(pod, poolRequests, i), totals[i], AnnotatedAt(pod, i), starter)
    }

    function Patches(): seq<Patch>
      requires Valid()
    {
      PodPatches(pod, poolRequests, totals, starter)
    }

    predicate ApplicableAt(i: nat)
      requires Valid() && i < |pod.containers|
    {
      At(i).Applicable(pod.containers[i])
    }

    /** The patches of the first m containers apply. */
    predicate ApplicableTo(m: nat)
      requires Valid() && m <= |pod.containers|
    {
      m > 0 ==> ApplicableTo(m - 1) && ApplicableAt(m - 1)
    }

    function MutatedAt(i: nat): Container
      requires Valid() && i < |pod.containers|
    {
      At(i).Mutated(pod.containers[i])
    }

    predicate Applicable()
      requires Valid()
    {
      ApplicableTo(|pod.containers|) && (AddsVolumes(pod, poolRequests) ==> pod.volumes.Some?)
    }

    /** The first m containers changed, the others not yet. */
    function Containers(m: nat): (containers: seq<Container>)
      requires Valid() && m <= |pod.containers|
      ensures |containers| == |pod.containers|
      ensures forall i | 0 <= i < |containers| ::
        containers[i] == if i < m then MutatedAt(i) else pod.containers[i]
    {
      if m == 0 then pod.containers else
        Containers(m - 1)[m - 1 := MutatedAt(m - 1)]
    }

    function Mutated(): Pod
      requires Valid()
    {
      pod.(containers := Containers(|pod.containers|),
           volumes := if AddsVolumes(pod, poolRequests)
                      then Some(Items(pod.volumes) + AddedVolumes(pod, starter, |pod.containers|)) else pod.volumes)
    }

    lemma OneContainer(i: nat)
      requires Valid() && i < |pod.containers|
      ensures Apply(pod.(containers := Containers(i)), PatchesAt(pod, poolRequests, totals[i], starter, i))
           == if ApplicableAt(i) then Some(pod.(containers := Containers(i + 1))) else None
    {
      At(i).ContainerEffect(i, pod.containers[i]);
      ApplyLocal(pod.(containers := Containers(i)), i, PatchesAt(pod, poolRequests, totals[i], starter, i));
    }

    lemma {:induction false} ContainersEffect(m: nat)
      requires Valid() && m <= |pod.containers|
      ensures Apply(pod, ContainersPatches(pod, poolRequests, totals, starter, m))
           == if ApplicableTo(m) then Some(pod.(containers := Containers(m))) else None
    {
      if m > 0 {
        ContainersEffect(m - 1);
        OneContainer(m - 1);
        ApplyConcat(pod, ContainersPatches(pod, poolRequests, totals, starter, m - 1),
                    PatchesAt(pod, poolRequests, totals[m - 1], starter, m - 1));
      }
    }
  }

  lemma {:induction false} VolumesEffect(pod: Pod, volumes: seq<Volume>)
    requires pod.volumes.Some? || volumes != []
    ensures Apply(pod, VolumePatches(volumes))
         == if pod.volumes.None? then None else Some(pod.(volumes := Some(pod.volumes.value + volumes)))
  {
    if volumes == [] {
      assert pod.volumes.value + volumes == pod.volumes.value;
    } else {
      var front, last := volumes[..|volumes| - 1], volumes[|volumes| - 1];
      assert VolumePatches(volumes) == VolumePatches(front) + [AddVolume(last)];
      ApplyNext(pod, VolumePatches(front), AddVolume(last));
      if pod.volumes.Some? || front != [] {
        VolumesEffect(pod, front);
      }
      if pod.volumes.Some? {
        assert pod.volumes.value + front + [last] == pod.volumes.value + volumes;
      }
    }
  }
}
