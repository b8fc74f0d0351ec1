/** Invoking the webhook any number of times, each time with a reading of its own. */
module WebhookHistory {
  import opened Wrappers
  import opened Annotation
  import opened AnnotationCheck
  import opened ArgsText
  import opened CfsLimit
  import opened GoText
  import opened PodPatch
  import opened PoolRequests
  import opened Pools
  import opened Webhook
  import opened WebhookEffect
  import opened WebhookRuns
  import PS = ProcessStarter

  /** What one invocation reads from the limits and computes from them; Go's map order and
      the choice of the shared pool may differ from one invocation to the next. */
  datatype Reading = Reading(poolRequests: PoolRequestMap, totals: seq<int>)

  ghost predicate IsReading(pod: Pod, quotas: string, configs: Option<seq<PoolConfig>>, reading: Reading) {
    && AllRead(reading.poolRequests, pod.containers) && |reading.totals| == |pod.containers|
    && AreCfsLimits(pod, reading.poolRequests, quotas, configs, reading.totals, |reading.totals|)
  }

  /** Every container's CFS limit is settled by its limits. */
  ghost predicate HasSettledLimits(pod: Pod, quotas: string, configs: Option<seq<PoolConfig>>) {
    forall i | 0 <= i < |pod.containers| :: IsSettled(pod.containers[i].limits, quotas, configs)
  }

  function AdmissionOf(pod: Pod, starter: string, reading: Reading): Admission {
    Admission(pod, reading.poolRequests, reading.totals, starter)
  }

  /** The pod after one invocation; None when its patch does not apply. */
  ghost function InvokedOn(pod: Pod, starter: string, reading: Reading): Option<Pod> {
    var a := AdmissionOf(pod, starter, reading);
    if a.Valid() then Apply(pod, a.Patches()) else None
  }

  /** The pod after the first n of these invocations. */
  ghost function Invoked(pod: Pod, starter: string, readings: seq<Reading>, n: nat): Option<Pod>
    requires n <= |readings|
  {
    if n == 0 then Some(pod) else
      match Invoked(pod, starter, readings, n - 1)
      case None => None
      case Some(before) => InvokedOn(before, starter, readings[n - 1])
  }

  /** Every invocation reads the pod that the earlier ones made. */
  ghost predicate IsHistory(pod: Pod, starter: string, quotas: string, configs: Option<seq<PoolConfig>>, readings: seq<Reading>) {
    forall k {:trigger Invoked(pod, starter, readings, k)} | 0 <= k < |readings| ::
      var before := Invoked(pod, starter, readings, k);
      before.Some? ==> IsReading(before.value, quotas, configs, readings[k])
  }

  lemma {:induction false} LimitOf(pod: Pod, poolRequests: PoolRequestMap, quotas: string, configs: Option<seq<PoolConfig>>,
                                   totals: seq<int>, i: nat, m: nat)
    requires i < m <= |pod.containers| && m <= |totals| && AreCfsLimits(pod, poolRequests, quotas, configs, totals, m)
    ensures LimitAt(pod, poolRequests, quotas, configs, totals[i], i)
  {
    if i < m - 1 {
      LimitOf(pod, poolRequests, quotas, configs, totals, i, m - 1);
    }
  }

  lemma {:induction false} FromLimits(pod: Pod, poolRequests: PoolRequestMap, quotas: string, configs: Option<seq<PoolConfig>>,
                                      totals: seq<int>, m: nat)
    requires m <= |pod.containers| && m <= |totals|
    requires forall i | 0 <= i < m :: LimitAt(pod, poolRequests, quotas, configs, totals[i], i)
    ensures AreCfsLimits(pod, poolRequests, quotas, configs, totals, m)
  {
    if m > 0 {
      FromLimits(pod, poolRequests, quotas, configs, totals, m - 1);
    }
  }

  /** What a reading computes for a container is a limit that its resources may lead to. */
  lemma ReadLimit(pod: Pod, quotas: string, configs: Option<seq<PoolConfig>>, reading: Reading, i: nat)
    requires IsReading(pod, quotas, configs, reading) && i < |pod.containers|
    ensures MayLimit(pod.containers[i].limits, quotas, configs, reading.totals[i])
  {
    LimitOf(pod, reading.poolRequests, quotas, configs, reading.totals, i, |reading.totals|);
    assert RequestsRead(reading.poolRequests, pod.containers[i]);
  }

  /** The patch leaves names and limits of resources alone. */
  ghost predicate SameResources(pod: Pod, after: Pod) {
    && |after.containers| == |pod.containers|
    && forall i | 0 <= i < |pod.containers| ::
         after.containers[i].name == pod.containers[i].name && after.containers[i].limits == pod.containers[i].limits
  }

  lemma LikeNames(a: Admission, after: Pod)
    requires a.Valid() && IsLikeMutated(a, after)
    ensures SameResources(a.pod, after)
  {
    forall i | 0 <= i < |a.pod.containers|
      ensures after.containers[i].name == a.pod.containers[i].name && after.containers[i].limits == a.pod.containers[i].limits
    {
      a.At(i).KeepsOriginals(a.pod.containers[i]);
      assert SameButLimits(a.MutatedAt(i), after.containers[i]);
    }
  }

  lemma MutatedIsLike(a: Admission)
    requires a.Valid()
    ensures IsLikeMutated(a, a.Mutated())
  {
    forall i | 0 <= i < |a.pod.containers| ensures SameButLimits(a.MutatedAt(i), a.Mutated().containers[i]) {
      assert a.Mutated().containers[i] == a.MutatedAt(i);
    }
  }

  lemma AlikeAt(pod: Pod, after: Pod, quotas: string, configs: Option<seq<PoolConfig>>, first: Reading, again: Reading, i: nat)
    requires SameResources(pod, after) && i < |pod.containers|
    requires IsReading(pod, quotas, configs, first) && IsReading(after, quotas, configs, again)
    ensures again.totals[i] > 0 <==> first.totals[i] > 0
    ensures IsSettled(pod.containers[i].limits, quotas, configs) ==> again.totals[i] == first.totals[i]
    ensures SameAmounts(RequestsAt(pod, first.poolRequests, i), RequestsOf(again.poolRequests, pod.containers[i].name))
  {
    var c, d := pod.containers[i], after.containers[i];
    assert RequestsRead(first.poolRequests, c) && RequestsRead(again.poolRequests, d);
    AmountsDetermined(first.poolRequests, again.poolRequests, c, d);
    ReadLimit(pod, quotas, configs, first, i);
    ReadLimit(after, quotas, configs, again, i);
    PositiveAlike(c.limits, quotas, configs, first.totals[i], again.totals[i]);
    LimitSettledExactly(c.limits, quotas, configs);
  }

  /** Two readings of the same resources differ at most in the pool that each takes for the
      shared one. */
  lemma OtherReading(pod: Pod, after: Pod, starter: string, quotas: string, configs: Option<seq<PoolConfig>>, first: Reading, again: Reading)
    requires SameResources(pod, after)
    requires IsReading(pod, quotas, configs, first) && IsReading(after, quotas, configs, again)
    ensures IsOtherReading(AdmissionOf(pod, starter, first), AdmissionOf(after, starter, again))
    ensures HasSettledLimits(pod, quotas, configs) ==> again.totals == first.totals
  {
    forall i | 0 <= i < |pod.containers|
      ensures again.totals[i] > 0 <==> first.totals[i] > 0
      ensures IsSettled(pod.containers[i].limits, quotas, configs) ==> again.totals[i] == first.totals[i]
      ensures SameAmounts(RequestsAt(pod, first.poolRequests, i), RequestsOf(again.poolRequests, pod.containers[i].name))
    {
      AlikeAt(pod, after, quotas, configs, first, again, i);
    }
  }

  lemma FirstInvocation(pod: Pod, starter: string, reading: Reading)
    requires AdmissionOf(pod, starter, reading).Valid() && AdmissionOf(pod, starter, reading).Applicable()
    ensures InvokedOn(pod, starter, reading) == Some(AdmissionOf(pod, starter, reading).Mutated())
  {
    PodEffect(AdmissionOf(pod, starter, reading));
  }

  /** The pod that the first admission made but for the values of CPU limits and requests,
      and altogether when the limits are settled. */
  ghost predicate IsResult(a: Admission, quotas: string, configs: Option<seq<PoolConfig>>, after: Option<Pod>)
    requires a.Valid()
  {
    && after.Some? && IsLikeMutated(a, after.value)
    && (HasSettledLimits(a.pod, quotas, configs) ==> after.value == a.Mutated())
  }

  /** A later invocation changes nothing but CPU limits and requests, and not even those
      when the limits are settled. */
  lemma LaterInvocation(a: Admission, before: Pod, quotas: string, configs: Option<seq<PoolConfig>>, again: Reading)
    requires a.Valid() && a.Applicable() && IsReading(a.pod, quotas, configs, Reading(a.poolRequests, a.totals))
    requires IsResult(a, quotas, configs, Some(before)) && IsReading(before, quotas, configs, again)
    ensures IsResult(a, quotas, configs, InvokedOn(before, a.starter, again))
  {
    var b := AdmissionOf(before, a.starter, again);
    LikeNames(a, before);
    OtherReading(a.pod, before, a.starter, quotas, configs, Reading(a.poolRequests, a.totals), again);
    Reinvoked(a, b);
    if HasSettledLimits(a.pod, quotas, configs) {
      Idempotent(a, b);
    }
  }

  ghost predicate Starts(pod: Pod, starter: string, quotas: string, configs: Option<seq<PoolConfig>>, reading: Reading) {
    && IsReading(pod, quotas, configs, reading)
    && AdmissionOf(pod, starter, reading).Valid() && AdmissionOf(pod, starter, reading).Applicable()
  }

  lemma ReadsPrevious(pod: Pod, starter: string, quotas: string, configs: Option<seq<PoolConfig>>, readings: seq<Reading>, k: nat)
    requires k < |readings| && IsHistory(pod, starter, quotas, configs, readings) && Invoked(pod, starter, readings, k).Some?
    ensures IsReading(Invoked(pod, starter, readings, k).value, quotas, configs, readings[k])
    ensures Invoked(pod, starter, readings, k + 1) == InvokedOn(Invoked(pod, starter, readings, k).value, starter, readings[k])
  {
  }

  lemma OneInvocation(pod: Pod, starter: string, quotas: string, configs: Option<seq<PoolConfig>>, readings: seq<Reading>)
    requires readings != [] && Starts(pod, starter, quotas, configs, readings[0])
    ensures Invoked(pod, starter, readings, 1) == Some(AdmissionOf(pod, starter, readings[0]).Mutated())
    ensures IsResult(AdmissionOf(pod, starter, readings[0]), quotas, configs, Some(AdmissionOf(pod, starter, readings[0]).Mutated()))
  {
    assert Invoked(pod, starter, readings, 0) == Some(pod);
    FirstInvocation(pod, starter, readings[0]);
    MutatedIsLike(AdmissionOf(pod, starter, readings[0]));
  }

  lemma OneMore(pod: Pod, starter: string, quotas: string, configs: Option<seq<PoolConfig>>, readings: seq<Reading>, n: nat,
                before: Pod) returns (after: Pod)
    requires 1 < n <= |readings| && IsHistory(pod, starter, quotas, configs, readings)
    requires Starts(pod, starter, quotas, configs, readings[0]) && Invoked(pod, starter, readings, n - 1) == Some(before)
    requires IsResult(AdmissionOf(pod, starter, readings[0]), quotas, configs, Some(before))
    ensures Invoked(pod, starter, readings, n) == Some(after)
    ensures IsResult(AdmissionOf(pod, starter, readings[0]), quotas, configs, Some(after))
  {
    ReadsPrevious(pod, starter, quotas, configs, readings, n - 1);
    LaterInvocation(AdmissionOf(pod, starter, readings[0]), before, quotas, configs, readings[n - 1]);
    after := InvokedOn(before, starter, readings[n - 1]).value;
  }

  /** What n invocations make of the pod. */
  ghost predicate IsAfter(a: Admission, quotas: string, configs: Option<seq<PoolConfig>>, readings: seq<Reading>, n: nat, after: Pod)
    requires a.Valid() && n <= |readings|
  {
    Invoked(a.pod, a.starter, readings, n) == Some(after) && IsResult(a, quotas, configs, Some(after))
  }

  lemma AfterMany(a: Admission, quotas: string, configs: Option<seq<PoolConfig>>, readings: seq<Reading>, n: nat)
    returns (after: Pod)
    requires 1 <= n <= |readings| && IsHistory(a.pod, a.starter, quotas, configs, readings)
    requires Starts(a.pod, a.starter, quotas, configs, readings[0]) && a == AdmissionOf(a.pod, a.starter, readings[0])
    ensures IsAfter(a, quotas, configs, readings, n, after)
  {
    OneInvocation(a.pod, a.starter, quotas, configs, readings);
    after := a.Mutated();
    for k := 1 to n
      invariant IsAfter(a, quotas, configs, readings, k, after)
    {
      after := OneMore(a.pod, a.starter, quotas, configs, readings, k + 1, after);
    }
  }

  /** Any number of invocations equals one but for CPU limits and requests, whatever each of
      them reads; and altogether, when the limits are settled. */
  lemma AnyNumberIsOne(pod: Pod, starter: string, quotas: string, configs: Option<seq<PoolConfig>>,
                       readings: seq<Reading>, n: nat) returns (after: Pod)
    requires 1 <= n <= |readings| && IsHistory(pod, starter, quotas, configs, readings)
    requires Starts(pod, starter, quotas, configs, readings[0])
    ensures Invoked(pod, starter, readings, n) == Some(after)
    ensures IsResult(AdmissionOf(pod, starter, readings[0]), quotas, configs, Some(after))
  {
    after := AfterMany(AdmissionOf(pod, starter, readings[0]), quotas, configs, readings, n);
  }

  // ---- Exactly when any number is one ----

  /** A reading in which container i is read like this. */
  function With(pod: Pod, reading: Reading, i: nat, requests: Requests, total: int): Reading
    requires i < |pod.containers| && i < |reading.totals|
  {
    Reading(reading.poolRequests[pod.containers[i].name := requests], reading.totals[i := total])
  }

  lemma WithIsReading(pod: Pod, quotas: string, configs: Option<seq<PoolConfig>>, reading: Reading, i: nat, requests: Requests, total: int)
    requires DistinctNames(pod.containers) && IsReading(pod, quotas, configs, reading) && i < |pod.containers|
    requires var limits := pod.containers[i].limits;
      HasPool(limits.Keys) && Reads(requests, limits, limits.Keys) && IsCfsLimit(requests, quotas, configs, total)
    ensures IsReading(pod, quotas, configs, With(pod, reading, i, requests, total))
  {
    var after := With(pod, reading, i, requests, total);
    forall j | 0 <= j < |pod.containers|
      ensures RequestsRead(after.poolRequests, pod.containers[j])
      ensures LimitAt(pod, after.poolRequests, quotas, configs, after.totals[j], j)
    {
      assert RequestsRead(reading.poolRequests, pod.containers[j]);
      LimitOf(pod, reading.poolRequests, quotas, configs, reading.totals, j, |reading.totals|);
      assert j != i ==> pod.containers[j].name != pod.containers[i].name;
    }
    FromLimits(pod, after.poolRequests, quotas, configs, after.totals, |after.totals|);
  }

  /** A reading of a pod is one of every pod with the same resources. */
  lemma SameReadings(pod: Pod, after: Pod, quotas: string, configs: Option<seq<PoolConfig>>, reading: Reading)
    requires SameResources(pod, after) && IsReading(pod, quotas, configs, reading)
    ensures IsReading(after, quotas, configs, reading)
  {
    forall j | 0 <= j < |after.containers|
      ensures RequestsRead(reading.poolRequests, after.containers[j])
      ensures LimitAt(after, reading.poolRequests, quotas, configs, reading.totals[j], j)
    {
      assert RequestsRead(reading.poolRequests, pod.containers[j]);
      LimitOf(pod, reading.poolRequests, quotas, configs, reading.totals, j, |reading.totals|);
    }
    FromLimits(after, reading.poolRequests, quotas, configs, reading.totals, |reading.totals|);
    forall name | name in reading.poolRequests ensures exists j :: 0 <= j < |after.containers| && after.containers[j].name == name {
      var j :| 0 <= j < |pod.containers| && pod.containers[j].name == name;
      assert after.containers[j].name == name;
    }
  }

  lemma MixedHasPool(limits: map<string, int>, quotas: string)
    requires MixesIn(limits, quotas)
    ensures HasPool(limits.Keys)
  {
    var keys := WithPrefix(limits.Keys, SHARED_PREFIX);
    assert keys != {};
    var k :| k in keys;
    PrefixesNest(k);
  }

  /** A container that may get two limits: some reading leads to each. */
  lemma ReadingWith(pod: Pod, quotas: string, configs: Option<seq<PoolConfig>>, reading: Reading, i: nat, total: int) returns (after: Reading)
    requires DistinctNames(pod.containers) && IsReading(pod, quotas, configs, reading) && i < |pod.containers|
    requires MixesIn(pod.containers[i].limits, quotas) && MayLimit(pod.containers[i].limits, quotas, configs, total)
    ensures IsReading(pod, quotas, configs, after) && after.totals[i] == total
  {
    var limits := pod.containers[i].limits;
    MixedHasPool(limits, quotas);
    var requests :| Reads(requests, limits, limits.Keys) && IsCfsLimit(requests, quotas, configs, total);
    WithIsReading(pod, quotas, configs, reading, i, requests, total);
    after := With(pod, reading, i, requests, total);
  }

  lemma DistinctTexts(t: nat, u: nat)
    requires t != u
    ensures Itoa(t) + "m" != Itoa(u) + "m"
  {
    ItoaInjective(t, u);
    assert (Itoa(t) + "m")[..|Itoa(t) + "m"| - 1] == Itoa(t) && (Itoa(u) + "m")[..|Itoa(u) + "m"| - 1] == Itoa(u);
  }

  /** A container whose limit is not settled: two invocations that read its limits in
      different orders leave it with another CPU limit than the first one alone. */
  lemma TwoReadings(pod: Pod, starter: string, quotas: string, configs: Option<seq<PoolConfig>>, any: Reading,
                    i: nat, t: nat, u: nat) returns (readings: seq<Reading>)
    requires DistinctNames(pod.containers) && Starts(pod, starter, quotas, configs, any) && i < |pod.containers| && t != u
    requires var limits := pod.containers[i].limits;
      MixesIn(limits, quotas) && MayLimit(limits, quotas, configs, t) && MayLimit(limits, quotas, configs, u)
    ensures |readings| == 2 && IsHistory(pod, starter, quotas, configs, readings)
    ensures var first, second := Invoked(pod, starter, readings, 1), Invoked(pod, starter, readings, 2);
      && first.Some? && second.Some? && i < |first.value.containers| && i < |second.value.containers|
      && first.value.containers[i].cpuLimit == Some(Itoa(t) + "m")
      && second.value.containers[i].cpuLimit == Some(Itoa(u) + "m") != Some(Itoa(t) + "m")
  {
    var one := ReadingWith(pod, quotas, configs, any, i, t);
    var two := ReadingWith(pod, quotas, configs, any, i, u);
    var a := AdmissionOf(pod, starter, one);
    OtherReading(pod, pod, starter, quotas, configs, any, one);
    ApplicableAlike(AdmissionOf(pod, starter, any), a);
    MutatedIsLike(a);
    LikeNames(a, a.Mutated());
    SameReadings(pod, a.Mutated(), quotas, configs, two);
    readings := [one, two];
    TwoInvocations(pod, starter, quotas, configs, one, two);
    PositiveAlike(pod.containers[i].limits, quotas, configs, t, u);
    DistinctTexts(t, u);
    FirstLimit(a, i);
    OtherReading(pod, a.Mutated(), starter, quotas, configs, one, two);
    Reinvoked(a, AdmissionOf(a.Mutated(), starter, two));
  }

  lemma TwoInvocations(pod: Pod, starter: string, quotas: string, configs: Option<seq<PoolConfig>>, one: Reading, two: Reading)
    requires Starts(pod, starter, quotas, configs, one)
    requires IsReading(AdmissionOf(pod, starter, one).Mutated(), quotas, configs, two)
    ensures var a := AdmissionOf(pod, starter, one);
      && IsHistory(pod, starter, quotas, configs, [one, two])
      && Invoked(pod, starter, [one, two], 1) == Some(a.Mutated())
      && Invoked(pod, starter, [one, two], 2) == InvokedOn(a.Mutated(), starter, two)
  {
    FirstInvocation(pod, starter, one);
    assert Invoked(pod, starter, [one, two], 0) == Some(pod);
    assert Invoked(pod, starter, [one, two], 1) == Some(AdmissionOf(pod, starter, one).Mutated());
  }

  lemma FirstLimit(a: Admission, i: nat)
    requires a.Valid() && i < |a.pod.containers| && a.totals[i] > 0
    ensures a.Mutated().containers[i].cpuLimit == Some(Itoa(a.totals[i]) + "m")
  {
    assert a.Mutated().containers[i] == a.MutatedAt(i);
  }

  ghost predicate EqualsOne(pod: Pod, starter: string, readings: seq<Reading>, n: nat)
    requires 1 <= n <= |readings|
  {
    Invoked(pod, starter, readings, n) == Invoked(pod, starter, readings, 1)
  }

  /** For a pod to which the patch applies: any number of invocations equals one, whatever
      each of them reads, exactly when the CFS limits of all containers are settled. */
  lemma AnyNumberIsOneExactly(pod: Pod, starter: string, quotas: string, configs: Option<seq<PoolConfig>>, any: Reading)
    requires DistinctNames(pod.containers) && Starts(pod, starter, quotas, configs, any)
    ensures (forall readings, n {:trigger EqualsOne(pod, starter, readings, n)} |
               1 <= n <= |readings| && IsHistory(pod, starter, quotas, configs, readings) :: EqualsOne(pod, starter, readings, n))
       <==> HasSettledLimits(pod, quotas, configs)
  {
    if HasSettledLimits(pod, quotas, configs) {
      forall readings, n | 1 <= n <= |readings| && IsHistory(pod, starter, quotas, configs, readings)
        ensures EqualsOne(pod, starter, readings, n)
      {
        HistoryStarts(pod, starter, quotas, configs, any, readings);
        var after := AnyNumberIsOne(pod, starter, quotas, configs, readings, n);
        OneInvocation(pod, starter, quotas, configs, readings);
      }
    } else {
      var i :| 0 <= i < |pod.containers| && !IsSettled(pod.containers[i].limits, quotas, configs);
      var t, u := TwoLimits(pod.containers[i].limits, quotas, configs);
      var readings := TwoReadings(pod, starter, quotas, configs, any, i, t, u);
      assert !EqualsOne(pod, starter, readings, 2);
    }
  }

  lemma HistoryStarts(pod: Pod, starter: string, quotas: string, configs: Option<seq<PoolConfig>>, any: Reading, readings: seq<Reading>)
    requires Starts(pod, starter, quotas, configs, any) && readings != [] && IsHistory(pod, starter, quotas, configs, readings)
    ensures Starts(pod, starter, quotas, configs, readings[0])
  {
    assert Invoked(pod, starter, readings, 0) == Some(pod);
    OtherReading(pod, pod, starter, quotas, configs, any, readings[0]);
    ApplicableAlike(AdmissionOf(pod, starter, any), AdmissionOf(pod, starter, readings[0]));
  }

  lemma TwoLimits(limits: map<string, int>, quotas: string, configs: Option<seq<PoolConfig>>) returns (t: nat, u: nat)
    requires !IsSettled(limits, quotas, configs)
    ensures t != u && MixesIn(limits, quotas) && MayLimit(limits, quotas, configs, t) && MayLimit(limits, quotas, configs, u)
  {
    LimitSettledExactly(limits, quotas, configs);
    var x, y :| MayLimit(limits, quotas, configs, x) && MayLimit(limits, quotas, configs, y) && x != y;
    PositiveAlike(limits, quotas, configs, x, y);
    t, u := x, y;
  }

  // ---- The verdict ----

  /** When no two resources name the same pool, the amounts by pool name are determined as
      well. */
  lemma PoolsDetermined(a: Requests, b: Requests, limits: map<string, int>)
    requires Reads(a, limits, limits.Keys) && Reads(b, limits, limits.Keys) && NamesDiffer(limits)
    ensures a.pools == b.pools
  {
    forall name | name in a.pools ensures name in b.pools && a.pools[name] == b.pools[name] {
      var k :| k in limits.Keys && Names(k, name) && a.pools[name] == limits[k];
      var l :| l in limits.Keys && Names(l, name) && b.pools[name] == limits[l];
    }
    forall name | name in b.pools ensures name in a.pools {
      var k :| k in limits.Keys && Names(k, name) && b.pools[name] == limits[k];
    }
  }

  lemma ReadingDetermined(a: PoolRequestMap, b: PoolRequestMap, c: Container, d: Container)
    requires RequestsRead(a, c) && RequestsRead(b, d) && c.name == d.name && c.limits == d.limits && NamesDiffer(c.limits)
    ensures (c.name in a <==> c.name in b) && (c.name in a ==> a[c.name] == b[c.name])
  {
    AmountsDetermined(a, b, c, d);
    PoolsDetermined(RequestsOf(a, c.name), RequestsOf(b, c.name), c.limits);
  }

  /** A reinvocation reads the same, judges the annotation the same and pins the same. */
  lemma SameVerdict(a: Admission, again: PoolRequestMap)
    requires a.Valid() && a.Applicable()
    requires AllRead(a.poolRequests, a.pod.containers) && AllRead(again, a.Mutated().containers)
    requires forall i | 0 <= i < |a.pod.containers| :: NamesDiffer(a.pod.containers[i].limits)
    ensures again == a.poolRequests
    ensures AnnotationFits(a.Mutated(), again) == AnnotationFits(a.pod, a.poolRequests)
    ensures PinsOne(a.Mutated(), again, |a.pod.containers|) == PinsOne(a.pod, a.poolRequests, |a.pod.containers|)
  {
    MutatedIsLike(a);
    LikeNames(a, a.Mutated());
    ReadAlike(a.poolRequests, again, a.pod.containers, a.Mutated().containers);
    assert IsReinvocation(a, a.(pod := a.Mutated()));
    ReinvokedTo(a, a.(pod := a.Mutated()), |a.pod.containers|);
  }

  /** Containers with the same names and limits are read alike. */
  lemma ReadAlike(a: PoolRequestMap, b: PoolRequestMap, containers: seq<Container>, patched: seq<Container>)
    requires AllRead(a, containers) && AllRead(b, patched) && |patched| == |containers|
    requires forall i | 0 <= i < |containers| ::
      patched[i].name == containers[i].name && patched[i].limits == containers[i].limits
    requires forall i | 0 <= i < |containers| :: NamesDiffer(containers[i].limits)
    ensures a == b
  {
    forall i | 0 <= i < |containers|
      ensures var name := containers[i].name; (name in a <==> name in b) && (name in a ==> a[name] == b[name])
    {
      assert RequestsRead(a, containers[i]) && RequestsRead(b, patched[i]);
      ReadingDetermined(a, b, containers[i], patched[i]);
    }
    SameMap(a, b, containers, patched);
  }

  lemma SameMap(a: PoolRequestMap, b: PoolRequestMap, containers: seq<Container>, patched: seq<Container>)
    requires forall name | name in a :: exists i :: 0 <= i < |containers| && containers[i].name == name
    requires forall name | name in b :: exists i :: 0 <= i < |patched| && patched[i].name == name
    requires |patched| == |containers| && forall i | 0 <= i < |containers| :: patched[i].name == containers[i].name
    requires forall i | 0 <= i < |containers| ::
      var name := containers[i].name; (name in a <==> name in b) && (name in a ==> a[name] == b[name])
    ensures a == b
  {
    forall name | name in a ensures name in b && a[name] == b[name] {
      var i :| 0 <= i < |containers| && containers[i].name == name;
    }
    forall name | name in b ensures name in a {
      var i :| 0 <= i < |patched| && patched[i].name == name;
    }
  }

  // ---- The wrapped command ----

  /** A name without an entry by name is no name of an entry. */
  lemma {:induction false} NoEntry(entries: seq<AnnotatedContainer>, m: nat, name: string)
    requires m <= |entries| && name !in ByName(entries, m)
    ensures forall k | 0 <= k < m :: entries[k].name != name
  {
    if m > 0 {
      NoEntry(entries, m - 1, name);
    }
  }

  lemma {:induction false} NoneNamed(entries: seq<AnnotatedContainer>, name: string)
    requires forall k | 0 <= k < |entries| :: entries[k].name != name
    ensures PS.FirstNamed(entries, name) == None
  {
    if entries != [] {
      assert forall k | 0 <= k < |entries[1..]| :: entries[1..][k] == entries[k + 1];
      NoneNamed(entries[1..], name);
    }
  }

  lemma WrappedContainer(s: Setting, c: Container)
    requires s.WrapsNow(c) && AllClean(Items(c.command)) && AllClean(Items(c.args))
    ensures Items(s.Mutated(c).command) == [s.starter]
    ensures Items(s.Mutated(c).args) == Items(c.command) + Items(c.args)
  {
    ReadsBackExactly(Items(c.command), Items(c.args));
  }

  /** How the starter of a container with this name may go on after it was released. */
  ghost predicate Becoming(pod: Pod, name: string, cpus: PS.Cpus, argv: seq<string>, outcome: PS.Outcome) {
    PS.Runs(outcome, if pod.annotation.None? then [] else pod.annotation.value.entries, name, cpus, argv)
  }

  /** A pinned container with a command and without an annotation entry: after any number
      of invocations the process starter finds no processes to launch and, given the
      container's command and arguments, becomes the original command with its arguments. */
  lemma WrappingUndone(pod: Pod, starter: string, quotas: string, configs: Option<seq<PoolConfig>>,
                       readings: seq<Reading>, n: nat, i: nat)
    requires 1 <= n <= |readings| && IsHistory(pod, starter, quotas, configs, readings) && i < |pod.containers|
    requires Starts(pod, starter, quotas, configs, readings[0])
    requires AdmissionOf(pod, starter, readings[0]).At(i).WrapsNow(pod.containers[i])
    requires AllClean(Items(pod.containers[i].command)) && AllClean(Items(pod.containers[i].args))
    ensures var final := Invoked(pod, starter, readings, n);
      final.Some? && i < |final.value.containers|
    ensures var c, after := pod.containers[i], Invoked(pod, starter, readings, n).value.containers[i];
      && PS.FirstNamed(if pod.annotation.None? then [] else pod.annotation.value.entries, c.name) == None
      && Items(after.command) == [starter]
      && (Items(after.command) + Items(after.args))[1..] == Items(c.command) + Items(c.args)
      && forall outcome, cpus {:trigger Becoming(pod, c.name, cpus, Items(after.command) + Items(after.args), outcome)} |
           Becoming(pod, c.name, cpus, Items(after.command) + Items(after.args), outcome) ::
           outcome == PS.Becomes(Items(c.command) + Items(c.args))
  {
    var a, c := AdmissionOf(pod, starter, readings[0]), pod.containers[i];
    var after := AnyNumberIsOne(pod, starter, quotas, configs, readings, n);
    WrappedContainer(a.At(i), c);
    assert SameButLimits(a.MutatedAt(i), after.containers[i]);
    var entries := if pod.annotation.None? then [] else pod.annotation.value.entries;
    NoEntry(entries, |entries|, c.name);
    NoneNamed(entries, c.name);
  }
}
