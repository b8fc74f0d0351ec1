/** Applying the webhook's patch to a pod: once, and any number of times. */
module WebhookRuns {
  import opened Wrappers
  import opened Annotation
  import opened AnnotationCheck
  import opened PodPatch
  import opened Pools
  import opened Webhook
  import opened WebhookEffect

  /** The patch of a pod applies exactly under the stated condition, and makes the stated
      pod of it. */
  lemma PodEffect(a: Admission)
    requires a.Valid()
    ensures Apply(a.pod, a.Patches()) == if a.Applicable() then Some(a.Mutated()) else None
  {
    var n := |a.pod.containers|;
    var containers := ContainersPatches(a.pod, a.poolRequests, a.totals, a.starter, n);
    a.ContainersEffect(n);
    if AddsVolumes(a.pod, a.poolRequests) {
      var volumes := AddedVolumes(a.pod, a.starter, n);
      AddedCount(a.pod, a.starter, n);
      ApplyConcat(a.pod, containers, VolumePatches(volumes));
      VolumesEffect(a.pod.(containers := a.Containers(n)), volumes);
    } else {
      assert a.Patches() == containers;
    }
  }

  lemma {:induction false} AddedCount(pod: Pod, starter: string, m: nat)
    requires m <= |pod.containers|
    ensures |AddedVolumes(pod, starter, m)| == m + 2
    ensures AddedVolumes(pod, starter, m)[0].name == PODINFO && AddedVolumes(pod, starter, m)[1].name == HOSTBIN
    ensures forall j | 0 <= j < m :: AddedVolumes(pod, starter, m)[j + 2].name == CpuVolumeName(pod.containers[j].name)
  {
    if m > 0 {
      AddedCount(pod, starter, m - 1);
    }
  }

  // ---- Reinvocation ----

  /** The amounts are determined by the limits, in whatever order they were summed up. */
  lemma AmountsDetermined(a: PoolRequestMap, b: PoolRequestMap, c: Container, d: Container)
    requires RequestsRead(a, c) && RequestsRead(b, d) && c.name == d.name && c.limits == d.limits
    ensures SameAmounts(RequestsOf(a, c.name), RequestsOf(b, c.name))
  {
  }

  /** A pod that an admission made, but for the values of the CPU limits and requests. */
  ghost predicate IsLikeMutated(a: Admission, pod: Pod)
    requires a.Valid()
  {
    && |pod.containers| == |a.pod.containers| && pod == a.Mutated().(containers := pod.containers)
    && forall i | 0 <= i < |pod.containers| :: SameButLimits(a.MutatedAt(i), pod.containers[i])
  }

  /** Settings for the same containers, computed from another reading of their limits. */
  ghost predicate IsOtherReading(a: Admission, again: Admission)
    requires a.Valid()
  {
    && |again.totals| == |a.totals| && again.starter == a.starter
    && (forall i | 0 <= i < |a.totals| :: again.totals[i] > 0 <==> a.totals[i] > 0)
    && forall i | 0 <= i < |a.pod.containers| ::
         SameAmounts(RequestsAt(a.pod, a.poolRequests, i), RequestsOf(again.poolRequests, a.pod.containers[i].name))
  }

  /** A later admission of the pod that an earlier one made, whatever it reads. */
  ghost predicate IsReinvocation(a: Admission, again: Admission)
    requires a.Valid()
  {
    IsLikeMutated(a, again.pod) && IsOtherReading(a, again)
  }

  lemma AgainAt(a: Admission, again: Admission, i: nat)
    requires a.Valid() && IsReinvocation(a, again) && i < |a.pod.containers|
    ensures again.pod.containers[i].name == a.pod.containers[i].name
    ensures a.At(i).IsAgain(again.At(i))
  {
    a.At(i).KeepsOriginals(a.pod.containers[i]);
    assert SameButLimits(a.MutatedAt(i), again.pod.containers[i]);
  }

  lemma ReinvokedAt(a: Admission, again: Admission, i: nat)
    requires a.Valid() && IsReinvocation(a, again) && i < |a.pod.containers| && a.ApplicableAt(i)
    ensures again.ApplicableAt(i) && SameButLimits(a.MutatedAt(i), again.MutatedAt(i))
    ensures again.MutatedAt(i) == again.At(i).Limited(again.pod.containers[i])
    ensures PinnedAt(again.pod, again.poolRequests, i) == PinnedAt(a.pod, a.poolRequests, i)
  {
    AgainAt(a, again, i);
    assert SameButLimits(a.MutatedAt(i), again.pod.containers[i]);
    a.At(i).OnlyLimitsAgain(a.pod.containers[i], again.pod.containers[i], again.At(i));
  }

  lemma {:induction false} AllApplicable(a: Admission, i: nat, m: nat)
    requires a.Valid() && i < m <= |a.pod.containers| && a.ApplicableTo(m)
    ensures a.ApplicableAt(i)
  {
    if i < m - 1 {
      AllApplicable(a, i, m - 1);
    }
  }

  lemma {:induction false} ReinvokedTo(a: Admission, again: Admission, m: nat)
    requires a.Valid() && a.ApplicableTo(|a.pod.containers|) && IsReinvocation(a, again) && m <= |a.pod.containers|
    ensures again.ApplicableTo(m)
    ensures PinsOne(again.pod, again.poolRequests, m) == PinsOne(a.pod, a.poolRequests, m)
  {
    if m > 0 {
      ReinvokedTo(a, again, m - 1);
      AllApplicable(a, m - 1, |a.pod.containers|);
      ReinvokedAt(a, again, m - 1);
    }
  }

  lemma VolumesSettled(a: Admission, again: Admission)
    requires a.Valid() && IsLikeMutated(a, again.pod)
    requires PinsOne(again.pod, again.poolRequests, |a.pod.containers|) == PinsOne(a.pod, a.poolRequests, |a.pod.containers|)
    ensures !AddsVolumes(again.pod, again.poolRequests)
  {
    if AddsVolumes(a.pod, a.poolRequests) {
      AddedCount(a.pod, a.starter, |a.pod.containers|);
      assert Items(again.pod.volumes)[|Items(a.pod.volumes)|].name == PODINFO;
    }
  }

  lemma AgainApplicable(a: Admission, again: Admission)
    requires a.Valid() && a.Applicable() && IsReinvocation(a, again)
    ensures again.Valid() && again.Applicable() && !AddsVolumes(again.pod, again.poolRequests)
  {
    ReinvokedTo(a, again, |a.pod.containers|);
    VolumesSettled(a, again);
  }

  /** Invoked again on the pod that its patch made, whatever it reads this time, the webhook
      answers with a patch that applies and changes nothing but CPU limits and requests. */
  lemma Reinvoked(a: Admission, again: Admission)
    requires a.Valid() && a.Applicable() && IsReinvocation(a, again)
    ensures again.Valid() && Apply(again.pod, again.Patches()) == Some(again.Mutated())
    ensures IsLikeMutated(a, again.Mutated())
    ensures forall i | 0 <= i < |a.pod.containers| :: again.Mutated().containers[i] == again.At(i).Limited(again.pod.containers[i])
  {
    AgainApplicable(a, again);
    PodEffect(again);
    forall i | 0 <= i < |a.pod.containers|
      ensures SameButLimits(a.MutatedAt(i), again.Mutated().containers[i])
      ensures again.Mutated().containers[i] == again.At(i).Limited(again.pod.containers[i])
    {
      AllApplicable(a, i, |a.pod.containers|);
      ReinvokedAt(a, again, i);
      assert again.Mutated().containers[i] == again.MutatedAt(i);
    }
    assert again.Mutated() == again.pod.(containers := again.Mutated().containers);
  }

  lemma LimitedAlready(a: Admission, again: Admission, i: nat)
    requires a.Valid() && IsReinvocation(a, again) && again.pod == a.Mutated() && again.totals == a.totals
    requires i < |a.pod.containers|
    ensures again.At(i).Limited(again.pod.containers[i]) == again.pod.containers[i]
  {
    assert again.pod.containers[i] == a.MutatedAt(i);
    assert again.At(i).total == a.At(i).total;
  }

  /** When it computes the same CFS limits, it changes nothing. */
  lemma Idempotent(a: Admission, again: Admission)
    requires a.Valid() && a.Applicable() && IsReinvocation(a, again) && again.pod == a.Mutated() && again.totals == a.totals
    ensures again.Valid() && again.Applicable() && again.Mutated() == again.pod
    ensures Apply(again.pod, again.Patches()) == Some(again.pod)
  {
    Reinvoked(a, again);
    forall i | 0 <= i < |a.pod.containers| ensures again.Mutated().containers[i] == again.pod.containers[i] {
      LimitedAlready(a, again, i);
    }
    assert again.Mutated().containers == again.pod.containers;
    AgainApplicable(a, again);
  }

  lemma {:induction false} ApplicableAlikeTo(a: Admission, b: Admission, m: nat)
    requires a.Valid() && b.pod == a.pod && IsOtherReading(a, b) && m <= |a.pod.containers|
    ensures b.ApplicableTo(m) == a.ApplicableTo(m)
    ensures PinsOne(b.pod, b.poolRequests, m) == PinsOne(a.pod, a.poolRequests, m)
  {
    if m > 0 {
      ApplicableAlikeTo(a, b, m - 1);
      a.At(m - 1).ApplicableAgain(a.pod.containers[m - 1], b.At(m - 1));
    }
  }

  /** Whether the patch applies does not depend on the reading. */
  lemma ApplicableAlike(a: Admission, b: Admission)
    requires a.Valid() && b.pod == a.pod && IsOtherReading(a, b)
    ensures b.Valid() && b.Applicable() == a.Applicable()
  {
    ApplicableAlikeTo(a, b, |a.pod.containers|);
  }

  // ---- Mounts and volumes ----

  ghost predicate NamesOne(volumes: seq<Volume>, name: string) {
    exists k :: 0 <= k < |volumes| && volumes[k].name == name
                && forall l | 0 <= l < |volumes| && volumes[l].name == name :: l == k
  }

  /** No volume of the pod uses a name that the webhook gives to its own. */
  ghost predicate NoClash(pod: Pod) {
    forall k | 0 <= k < |Items(pod.volumes)| ::
      var name := Items(pod.volumes)[k].name;
      name != PODINFO && name != HOSTBIN && forall i | 0 <= i < |pod.containers| :: name != CpuVolumeName(pod.containers[i].name)
  }

  lemma OwnNamesDiffer(a: string, b: string)
    ensures PODINFO != HOSTBIN && CpuVolumeName(a) != PODINFO && CpuVolumeName(a) != HOSTBIN
    ensures CpuVolumeName(a) == CpuVolumeName(b) <==> a == b
  {
    assert CpuVolumeName(a)[0] == 'c' && PODINFO[0] == 'p' && HOSTBIN[0] == 'h';
    assert CpuVolumeName(a)[4..] == a && CpuVolumeName(b)[4..] == b;
  }

  /** The names of the added volumes differ from one another. */
  lemma AddedNamesDistinct(pod: Pod, starter: string)
    requires DistinctNames(pod.containers)
    ensures var added := AddedVolumes(pod, starter, |pod.containers|);
      forall k, l | 0 <= k < l < |added| :: added[k].name != added[l].name
  {
    var added := AddedVolumes(pod, starter, |pod.containers|);
    AddedCount(pod, starter, |pod.containers|);
    forall k, l | 0 <= k < l < |added| ensures added[k].name != added[l].name {
      if k >= 2 {
        assert pod.containers[k - 2].name != pod.containers[l - 2].name;
        assert added[(k - 2) + 2].name == CpuVolumeName(pod.containers[k - 2].name);
        OwnNamesDiffer(pod.containers[k - 2].name, pod.containers[l - 2].name);
      }
      if l >= 2 {
        assert added[(l - 2) + 2].name == CpuVolumeName(pod.containers[l - 2].name);
        OwnNamesDiffer(pod.containers[l - 2].name, "");
      } else {
        OwnNamesDiffer("", "");
      }
    }
  }

  /** Every mount that the webhook adds names exactly one volume of the patched pod. */
  lemma MountsHaveVolumes(a: Admission, i: nat, m: nat)
    requires a.Valid() && DistinctNames(a.pod.containers) && NoClash(a.pod) && AddsVolumes(a.pod, a.poolRequests)
    requires i < |a.pod.containers| && m < 3
    ensures NamesOne(Items(a.Mutated().volumes), PinningMounts(a.starter, a.pod.containers[i].name)[m].name)
  {
    var original, added := Items(a.pod.volumes), AddedVolumes(a.pod, a.starter, |a.pod.containers|);
    var name := PinningMounts(a.starter, a.pod.containers[i].name)[m].name;
    var at := if m == 2 then i + 2 else m;
    AddedCount(a.pod, a.starter, |a.pod.containers|);
    AddedNamesDistinct(a.pod, a.starter);
    assert added[at].name == name;
    var all := original + added;
    forall l | 0 <= l < |all| && l != |original| + at ensures all[l].name != name {
      assert l < |original| ==> all[l] == original[l];
      assert l >= |original| ==> all[l] == added[l - |original|];
    }
    assert all[|original| + at].name == name;
  }
}
