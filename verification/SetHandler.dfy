/** The setter at work on the cgroup tree: the worker that adjusts a pod after a change,
    and the periodic reconciliation. */
module SetHandler {
  import opened Wrappers
  import opened CpuSets
  import opened CgroupTree
  import opened CgroupNode
  import opened CorrectCpuset
  import opened CpusetOrder
  import opened Pools

  const MAX_RETRY_COUNT: nat := 5

  /** The names of all containers, once each of them has an ID. */
  function ContainerNames(pod: Pod): set<string> {
    if exists i | 0 <= i < |pod.statuses| :: pod.statuses[i].containerID == "" then {}
    else set i | 0 <= i < |pod.statuses| :: pod.statuses[i].name
  }

  /** gatherAllContainers */
  method GatherAllContainers(pod: Pod) returns (names: set<string>)
    ensures names == ContainerNames(pod)
  {
    names := {};
    for i := 0 to |pod.statuses|
      invariant forall j | 0 <= j < i :: pod.statuses[j].containerID != ""
      invariant names == set j | 0 <= j < i :: pod.statuses[j].name
    {
      if pod.statuses[i].containerID == "" {
        return {};
      }
      names := names + {pod.statuses[i].name};
    }
  }

  // ---- When the worker crashes ----

  /** The container ID in the first status with the name. */
  function StatusID(statuses: seq<Status>, name: string): string {
    if statuses == [] then "" else
      if statuses[0].name == name then statuses[0].containerID else StatusID(statuses[1..], name)
  }

  lemma {:induction false} CidIsTrimmed(statuses: seq<Status>, name: string)
    ensures DetermineCid(statuses, name) == TrimContainerPrefix(StatusID(statuses, name))
  {
    if statuses != [] && statuses[0].name != name {
      CidIsTrimmed(statuses[1..], name);
    }
  }

  lemma TrimmedAway(id: string)
    ensures TrimContainerPrefix(id) == "" <==> id == "" || id == DOCKER_PREFIX || id == CONTAINERD_PREFIX
  {
    assert DOCKER_PREFIX[0] != CONTAINERD_PREFIX[0];
    if DOCKER_PREFIX <= id {
      assert id == DOCKER_PREFIX + id[|DOCKER_PREFIX|..];
    } else if CONTAINERD_PREFIX <= id {
      assert id == CONTAINERD_PREFIX + id[|CONTAINERD_PREFIX|..];
    }
  }

  lemma {:induction false} NamedHasID(statuses: seq<Status>, name: string)
    requires forall i | 0 <= i < |statuses| :: statuses[i].containerID != ""
    ensures StatusID(statuses, name) != "" <==> exists i :: 0 <= i < |statuses| && statuses[i].name == name
  {
    if statuses != [] && statuses[0].name != name {
      assert forall i | 0 < i < |statuses| :: statuses[i] == statuses[1..][i - 1];
      NamedHasID(statuses[1..], name);
    }
  }

  predicate IsRuntimePrefix(id: string) {
    id == DOCKER_PREFIX || id == CONTAINERD_PREFIX
  }

  /** A gathered container, reached by the worker and decided on, whose ID is nothing but
      the name of the runtime. */
  ghost predicate CrashesAt(a: Attempt, i: nat)
    requires a.node.Valid()
  {
    && i < |a.pod.specs| && a.Gathered(i) && a.OutcomeAfter(i) == Done && a.Decision(i).Decided?
    && IsRuntimePrefix(StatusID(a.pod.statuses, a.pod.specs[i].name))
  }

  lemma CrashOfContainer(a: Attempt, i: nat)
    requires a.node.Valid() && a.names == ContainerNames(a.pod) && i < |a.pod.specs| && a.Gathered(i)
    ensures a.ContainerOutcome(i) == Crashed <==>
      a.Decision(i).Decided? && IsRuntimePrefix(StatusID(a.pod.statuses, a.pod.specs[i].name))
  {
    CidIsTrimmed(a.pod.statuses, a.pod.specs[i].name);
    TrimmedAway(StatusID(a.pod.statuses, a.pod.specs[i].name));
    NamedHasID(a.pod.statuses, a.pod.specs[i].name);
  }

  ghost predicate CrashesBefore(a: Attempt, m: nat)
    requires a.node.Valid()
  {
    exists i: nat :: i < m && CrashesAt(a, i)
  }

  lemma {:induction false} CrashWithin(a: Attempt, m: nat)
    requires a.node.Valid() && a.names == ContainerNames(a.pod) && m <= |a.pod.specs|
    ensures a.OutcomeAfter(m) == Crashed <==> CrashesBefore(a, m)
  {
    if m > 0 {
      CrashWithin(a, m - 1);
      assert CrashesBefore(a, m) <==> CrashesBefore(a, m - 1) || CrashesAt(a, m - 1);
      if a.Gathered(m - 1) {
        CrashOfContainer(a, m - 1);
      }
    }
  }

  /** For a pod as the worker gets it, an attempt whose I/O works dereferences a nil error
      exactly when it reaches such a container. */
  lemma CrashExactly(a: Attempt)
    requires a.node.Valid() && a.names == ContainerNames(a.pod)
    ensures a.Expected() == Crashed <==> exists i: nat :: CrashesAt(a, i)
  {
    CrashWithin(a, |a.pod.specs|);
    if i: nat :| CrashesAt(a, i) {
      assert i < |a.pod.specs|;
    }
  }

  /** On every node there is a pod that crashes every such attempt: one with a container
      without requests. */
  lemma CrashHappens(node: Node)
    requires node.Valid()
    ensures exists pod :: node.Handles(pod) && forall a: Attempt | a.IsFor(node, pod, ContainerNames(pod)) :: a.Expected() == Crashed
  {
    var pod := Pod("pod", [Spec("container", {})], [Status("container", DOCKER_PREFIX)]);
    assert pod.statuses[0].name == "container" && DOCKER_PREFIX != "";
    assert "container" in ContainerNames(pod);
    assert StatusID(pod.statuses, "container") == DOCKER_PREFIX;
    forall a: Attempt | a.IsFor(node, pod, ContainerNames(pod)) ensures a.Expected() == Crashed {
      assert node.MayDecide(pod, 0, a.decisions[0]);
      OrdinaryDecision(node.ContainerOf(pod, 0), a.decisions[0]);
      assert CrashesAt(a, 0);
      CrashExactly(a);
    }
    assert node.Handles(pod);
  }

  /** What applyCpusetToContainer answers: an error, no directory, or the directory (as
      its index in the tree) that belongs to the container. */
  datatype Applied = NotApplied | Applied(at: Option<nat>)

  class SetHandler {
    const node: Node
    /** The CPU set in cpuset.cpus of every directory. */
    var cpusets: map<Path, CPUSet>

    ghost predicate Valid()
      reads this
    {
      node.Valid() && node.Directories() <= cpusets.Keys
    }

    constructor (node: Node, cpusets: map<Path, CPUSet>)
      ensures this.node == node && this.cpusets == cpusets
    {
      this.node := node;
      this.cpusets := cpusets;
    }

    // ---- The worker ----

    /** applyCpusetToContainer. With `ioWorks` false the final write may fail. */
    method ApplyCpusetToContainer(cid: string, cpus: CPUSet, ioWorks: bool) returns (applied: Applied)
      requires Valid()
      modifies this`cpusets
      ensures Valid() && cpusets.Keys == old(cpusets).Keys
      ensures cpus == {} ==> applied == Applied(None) && cpusets == old(cpusets)
      ensures cpus != {} && node.tree.Target(cid).None? ==> applied == NotApplied && cpusets == old(cpusets)
      ensures cpus != {} && node.tree.Target(cid).Some? ==>
        || (!ioWorks && applied == NotApplied && cpusets == old(cpusets))
        || (applied == Applied(node.tree.LastTop(cid, |node.tree.dirs|))
            && cpusets == old(cpusets)[node.tree.Target(cid).value := cpus])
    {
      if cpus == {} {
        return Applied(None);
      }
      var found := node.tree.FindDirectory(cid);
      if found.None? {
        return NotApplied;
      }
      var last := node.tree.FindLast(found.value);
      var writeFails := *;
      if !ioWorks && writeFails {
        return NotApplied;
      }
      cpusets := cpusets[node.tree.dirs[last] := cpus];
      return Applied(found);
    }

    /** getInfraContainerPath */
    method GetInfraContainerPath(statuses: seq<Status>, at: nat) returns (path: Option<Path>)
      requires at < |node.tree.dirs|
      ensures path == node.InfraDirectory(statuses, at, |node.tree.dirs|)
    {
      path := None;
      for i := 0 to |node.tree.dirs|
        invariant path == node.InfraDirectory(statuses, at, i)
      {
        if node.BesideWithoutID(statuses, at, i) {
          path := Some(node.tree.dirs[i]);
        }
      }
    }

    lemma {:induction false} InfraIsInTree(statuses: seq<Status>, at: nat, m: nat)
      requires at < |node.tree.dirs| && m <= |node.tree.dirs|
      ensures node.InfraDirectory(statuses, at, m).Some? ==>
        exists i: nat :: i < m && node.tree.dirs[i] == node.InfraDirectory(statuses, at, m).value
                         && node.BesideWithoutID(statuses, at, i)
    {
      if m > 0 {
        InfraIsInTree(statuses, at, m - 1);
      }
    }

    /** applyCpusetToInfraContainer, given the directory found for the last container; `a` is
        the attempt so far, without the default pool. */
    method ApplyCpusetToInfraContainer(ghost a: Attempt, pod: Pod, at: Option<nat>, ioWorks: bool)
      returns (done: bool, ghost whole: Attempt)
      requires Valid() && a.node == node && a.pod == pod && at == a.SearchDirectory(|pod.specs|)
      modifies this`cpusets
      ensures Valid() && cpusets.Keys == old(cpusets).Keys
      ensures whole == a.(defaultCPUs := whole.defaultCPUs) && node.setter.MayBeDefault(whole.defaultCPUs)
      ensures done ==> whole.InfraOutcome() == Done && cpusets == old(cpusets) + whole.InfraWrite()
      ensures !done ==> cpusets == old(cpusets) && (ioWorks ==> whole.InfraOutcome() == Failed)
    {
      var pool := SelectPool(node.setter.pools, DEFAULT_POOL_ID);
      whole := a.(defaultCPUs := pool.cpus);
      SameSearchWith(a, whole, |pod.specs|);
      if pool.cpus == {} {
        return true, whole;
      }
      if at == None {
        return false, whole;
      }
      var path := GetInfraContainerPath(pod.statuses, at.value);
      InfraIsInTree(pod.statuses, at.value, |node.tree.dirs|);
      if path == None {
        return false, whole;
      }
      var writeFails := *;
      if !ioWorks && writeFails {
        return false, whole;
      }
      cpusets := cpusets[path.value := pool.cpus];
      return true, whole;
    }

    lemma {:induction false} SameSearchWith(a: Attempt, b: Attempt, m: nat)
      requires node.Valid() && a.node == node && b == a.(defaultCPUs := b.defaultCPUs) && m <= |a.pod.specs|
      ensures b.SearchDirectory(m) == a.SearchDirectory(m) && b.OutcomeAfter(m) == a.OutcomeAfter(m)
      ensures b.Writes(m) == a.Writes(m)
    {
      if m > 0 {
        SameSearchWith(a, b, m - 1);
      }
    }

    /** One iteration of the loop of adjustContainerSets, for a gathered container. */
    method AdjustContainer(pod: Pod, i: nat, ioWorks: bool)
      returns (outcome: Outcome, at: Option<nat>, ghost decision: Decision)
      requires Valid() && node.Handles(pod) && i < |pod.specs|
      modifies this`cpusets
      ensures Valid() && cpusets.Keys == old(cpusets).Keys && node.MayDecide(pod, i, decision)
      ensures outcome == Done ==>
        && node.OutcomeOf(pod, i, decision) == Done && cpusets == old(cpusets) + node.WriteFor(pod, i, decision)
        && at == if decision.cgroup == {} then None else node.tree.LastTop(node.Cid(pod, i), |node.tree.dirs|)
      ensures outcome != Done ==>
        && (cpusets == old(cpusets) || cpusets == old(cpusets) + node.WriteFor(pod, i, decision))
        && (if ioWorks then outcome == node.OutcomeOf(pod, i, decision)
            else outcome == Failed || outcome == node.OutcomeOf(pod, i, decision))
    {
      at := None;
      var decided := node.ContainerOf(pod, i).DetermineCorrectCpuset();
      decision := decided;
      if decided.Undecidable? {
        return Failed, None, decision;
      }
      var cid := DetermineCid(pod.statuses, pod.specs[i].name);
      if cid == "" {
        return Crashed, None, decision;
      }
      var applied := ApplyCpusetToContainer(cid, decided.cgroup, ioWorks);
      if applied.NotApplied? {
        return Failed, None, decision;
      }
      var copyFails := *;
      if !ioWorks && copyFails {
        return Failed, None, decision;
      }
      return Done, applied.at, decision;
    }

    /** An attempt that has decided on the first m containers. */
    ghost predicate IsBegun(a: Attempt, pod: Pod, names: set<string>, m: nat) {
      && a == Attempt(node, pod, names, a.decisions, {}) && |a.decisions| == m <= |pod.specs|
      && forall j | 0 <= j < m :: node.MayDecide(pod, j, a.decisions[j])
    }

    lemma Begin(pod: Pod, names: set<string>) returns (a: Attempt)
      ensures IsBegun(a, pod, names, 0)
    {
      a := Attempt(node, pod, names, [], {});
    }

    lemma Continue(a: Attempt, pod: Pod, names: set<string>, m: nat, decision: Decision) returns (b: Attempt)
      requires node.Valid() && IsBegun(a, pod, names, m) && m < |pod.specs| && node.MayDecide(pod, m, decision)
      ensures IsBegun(b, pod, names, m + 1) && b.Decision(m) == decision && a.decisions <= b.decisions
      ensures b.Writes(m) == a.Writes(m) && b.SearchDirectory(m) == a.SearchDirectory(m) && b.OutcomeAfter(m) == a.OutcomeAfter(m)
    {
      b := a.(decisions := a.decisions + [decision]);
      a.SameUntil(b, m);
    }

    /** It can be completed, with any decisions for the other containers. */
    lemma {:induction false} Complete(a: Attempt, pod: Pod, names: set<string>, m: nat) returns (b: Attempt)
      requires node.Valid() && node.Handles(pod) && IsBegun(a, pod, names, m)
      ensures IsBegun(b, pod, names, |pod.specs|)
      ensures a.decisions <= b.decisions
      decreases |pod.specs| - m
    {
      b := a;
      if m < |pod.specs| {
        assert node.ContainerOf(pod, m).Valid();
        var decision := SomeDecision(node.ContainerOf(pod, m));
        var c := Continue(a, pod, names, m, decision);
        b := Complete(c, pod, names, m + 1);
      }
    }

    /** The attempt that ends at a container. */
    lemma End(a: Attempt, pod: Pod, names: set<string>, i: nat, decision: Decision) returns (b: Attempt)
      requires node.Valid() && node.Handles(pod) && i < |pod.specs| && IsBegun(a, pod, names, i + 1)
      requires a.OutcomeAfter(i) == Done && a.Gathered(i) && a.Decision(i) == decision
      ensures IsBegun(b, pod, names, |pod.specs|)
      ensures node.OutcomeOf(pod, i, decision) != Done ==> b.OutcomeAfter(|pod.specs|) == node.OutcomeOf(pod, i, decision)
    {
      b := Complete(a, pod, names, i + 1);
      a.SameUntil(b, i + 1);
      if node.OutcomeOf(pod, i, decision) != Done {
        b.FirstOutcome(i + 1, |pod.specs|);
      }
    }

    /** The loop of adjustContainerSets. */
    method AdjustGathered(pod: Pod, names: set<string>, ioWorks: bool)
      returns (outcome: Outcome, at: Option<nat>, ghost a: Attempt)
      requires Valid() && node.Handles(pod)
      modifies this`cpusets
      ensures Valid() && cpusets.Keys == old(cpusets).Keys
      ensures node.Partly(pod, names, old(cpusets), cpusets)
      ensures IsBegun(a, pod, names, |pod.specs|)
      ensures outcome == Done ==>
        && a.OutcomeAfter(|pod.specs|) == Done && at == a.SearchDirectory(|pod.specs|)
        && cpusets == old(cpusets) + a.Writes(|pod.specs|)
      ensures outcome != Done ==> outcome == a.OutcomeAfter(|pod.specs|) || (!ioWorks && outcome == Failed)
    {
      at := None;
      a := Begin(pod, names);
      for i := 0 to |pod.specs|
        invariant Valid() && cpusets.Keys == old(cpusets).Keys && IsBegun(a, pod, names, i)
        invariant a.OutcomeAfter(i) == Done && at == a.SearchDirectory(i)
        invariant cpusets == old(cpusets) + a.Writes(i)
        invariant node.Partly(pod, names, old(cpusets), cpusets)
      {
        if pod.specs[i].name !in names {
          assert node.ContainerOf(pod, i).Valid();
          ghost var any := SomeDecision(node.ContainerOf(pod, i));
          a := Continue(a, pod, names, i, any);
          continue;
        }
        ghost var before := cpusets;
        ghost var decision: Decision;
        outcome, at, decision := AdjustContainer(pod, i, ioWorks);
        ghost var earlier := a;
        a := Continue(a, pod, names, i, decision);
        WriteIsPartly(pod, names, i, decision, old(cpusets), before, cpusets);
        if outcome != Done {
          a := End(a, pod, names, i, decision);
          return;
        }
        WritesOn(earlier, a, i, old(cpusets), before, cpusets);
      }
      return Done, at, a;
    }

    /** adjustContainerSets. With `ioWorks` false any write, the copying of the CPU files
        and the final annotation may fail. */
    method AdjustContainerSets(pod: Pod, names: set<string>, ioWorks: bool) returns (outcome: Outcome, ghost a: Attempt)
      requires Valid() && node.Handles(pod)
      modifies this`cpusets
      ensures Valid() && cpusets.Keys == old(cpusets).Keys
      ensures a.IsFor(node, pod, names)
      ensures outcome == Done ==> a.Expected() == Done && cpusets == old(cpusets) + a.AllWrites()
      ensures node.Partly(pod, names, old(cpusets), cpusets)
      ensures if ioWorks then outcome == a.Expected() else outcome == Failed || outcome == a.Expected()
    {
      var at: Option<nat>;
      ghost var begun: Attempt;
      outcome, at, begun := AdjustGathered(pod, names, ioWorks);
      if outcome != Done {
        a := WithSomeDefault(begun, pod, names);
        return;
      }
      ghost var before := cpusets;
      var done: bool;
      done, a := ApplyCpusetToInfraContainer(begun, pod, at, ioWorks);
      SameSearchWith(begun, a, |pod.specs|);
      InfraIsPartly(a, pod, names, old(cpusets), before, cpusets);
      if !done {
        return Failed, a;
      }
      AllWritesOn(a, old(cpusets), before, cpusets);
      var annotationFails := *;
      if !ioWorks && annotationFails {
        return Failed, a;
      }
      return Done, a;
    }

    lemma WithSomeDefault(begun: Attempt, pod: Pod, names: set<string>) returns (a: Attempt)
      requires node.Valid() && IsBegun(begun, pod, names, |pod.specs|)
      ensures a.IsFor(node, pod, names) && a.OutcomeAfter(|pod.specs|) == begun.OutcomeAfter(|pod.specs|)
    {
      var pool := SelectsSome(node.setter.pools, DEFAULT_POOL_ID);
      a := begun.(defaultCPUs := pool.cpus);
      SameSearchWith(begun, a, |pod.specs|);
    }

    lemma WritesOn(earlier: Attempt, a: Attempt, i: nat, before: map<Path, CPUSet>, now: map<Path, CPUSet>, after: map<Path, CPUSet>)
      requires node.Valid() && a.node == node && earlier.node == node && earlier.pod == a.pod
      requires i < |a.pod.specs| && a.Gathered(i) && a.Writes(i) == earlier.Writes(i)
      requires now == before + earlier.Writes(i) && after == now + a.Write(i)
      ensures after == before + a.Writes(i + 1)
    {
    }

    lemma AllWritesOn(a: Attempt, before: map<Path, CPUSet>, now: map<Path, CPUSet>, after: map<Path, CPUSet>)
      requires node.Valid() && a.node == node
      requires now == before + a.Writes(|a.pod.specs|) && after == now + a.InfraWrite()
      ensures after == before + a.AllWrites()
    {
    }

    lemma WriteIsPartly(pod: Pod, names: set<string>, i: nat, decision: Decision,
                        before: map<Path, CPUSet>, now: map<Path, CPUSet>, after: map<Path, CPUSet>)
      requires node.Valid() && i < |pod.specs| && node.Gathered(pod, names, i) && node.MayDecide(pod, i, decision)
      requires node.Partly(pod, names, before, now) && after.Keys == now.Keys
      requires after == now || after == now + node.WriteFor(pod, i, decision)
      ensures node.Partly(pod, names, before, after)
    {
      forall p | p in after ensures node.PartlyAt(pod, names, before, after, p) {
        assert node.PartlyAt(pod, names, before, now, p);
        if p in node.WriteFor(pod, i, decision) {
          assert decision == Decided(decision.config, decision.cgroup);
          assert node.MayHold(pod, i, decision.cgroup);
          assert node.MayWriteFor(pod, names, i, p, decision.cgroup);
        }
      }
    }

    lemma InfraIsPartly(a: Attempt, pod: Pod, names: set<string>,
                        before: map<Path, CPUSet>, now: map<Path, CPUSet>, after: map<Path, CPUSet>)
      requires node.Valid() && a.IsFor(node, pod, names) && node.Partly(pod, names, before, now) && after.Keys == now.Keys
      requires after == now || after == now + a.InfraWrite()
      ensures node.Partly(pod, names, before, after)
    {
      forall p | p in after ensures node.PartlyAt(pod, names, before, after, p) {
        assert node.PartlyAt(pod, names, before, now, p);
        if p in a.InfraWrite() {
          assert node.MayWrite(pod, names, p, a.InfraWrite()[p]);
        }
      }
    }

    /** handlePods, once the pod is known to be on this node: without gathered containers it
        does nothing, and otherwise it retries. */
    method HandlePods(pod: Pod, attempts: seq<bool>) returns (outcome: Option<Outcome>)
      requires Valid() && node.Handles(pod) && |attempts| == MAX_RETRY_COUNT
      modifies this`cpusets
      ensures Valid() && cpusets.Keys == old(cpusets).Keys
      ensures outcome == None <==> ContainerNames(pod) == {}
      ensures outcome == None ==> cpusets == old(cpusets)
      ensures outcome == Some(Done) ==> node.IsSuccess(pod, ContainerNames(pod), old(cpusets), cpusets)
      ensures outcome.Some? && outcome != Some(Done) ==> node.Partly(pod, ContainerNames(pod), old(cpusets), cpusets)
      ensures outcome.Some? && (outcome != Some(Failed) || exists i :: 0 <= i < |attempts| && attempts[i]) ==>
        node.MayEnd(pod, ContainerNames(pod), outcome.value)
    {
      var names := GatherAllContainers(pod);
      if |names| > 0 {
        var result := HandlePod(pod, names, attempts);
        outcome := Some(result);
      } else {
        outcome := None;
      }
    }

    /** The retry loop of handlePods for a pod with gathered containers: attempts[i] tells
        whether all I/O works during attempt i. Every attempt decides anew. A failure while
        some attempt's I/O works is an outcome that needs no I/O to fail. */
    method HandlePod(pod: Pod, names: set<string>, attempts: seq<bool>) returns (outcome: Outcome)
      requires Valid() && node.Handles(pod) && |attempts| == MAX_RETRY_COUNT
      modifies this`cpusets
      ensures Valid() && cpusets.Keys == old(cpusets).Keys
      ensures outcome == Done ==> node.IsSuccess(pod, names, old(cpusets), cpusets)
      ensures node.Partly(pod, names, old(cpusets), cpusets)
      ensures outcome != Failed || (exists i :: 0 <= i < |attempts| && attempts[i]) ==> node.MayEnd(pod, names, outcome)
    {
      outcome := Failed;
      for i := 0 to MAX_RETRY_COUNT
        invariant Valid() && node.Partly(pod, names, old(cpusets), cpusets)
        invariant outcome == Failed && ((exists j :: 0 <= j < i && attempts[j]) ==> node.MayEnd(pod, names, Failed))
      {
        ghost var before := cpusets;
        ghost var a: Attempt;
        outcome, a := AdjustContainerSets(pod, names, attempts[i]);
        PartlyTwice(pod, names, old(cpusets), before, cpusets);
        if outcome == Done {
          return;
        }
        if outcome == Crashed {
          return;
        }
      }
    }

    lemma PartlyTwice(pod: Pod, names: set<string>, before: map<Path, CPUSet>, now: map<Path, CPUSet>, after: map<Path, CPUSet>)
      requires node.Valid()
      requires node.Partly(pod, names, before, now) && node.Partly(pod, names, now, after)
      ensures node.Partly(pod, names, before, after)
    {
      forall p | p in after ensures node.PartlyAt(pod, names, before, after, p) {
        assert node.PartlyAt(pod, names, before, now, p) && node.PartlyAt(pod, names, now, after, p);
      }
    }

    // ---- The reconciliation ----

    /** reconcileContainer; `ok` is false when it returns an error. */
    method ReconcileContainer(leaves: seq<Path>, pod: Pod, i: nat, writeFails: bool)
      returns (ok: bool, ghost decision: Decision)
      requires node.Handles(pod) && i < |pod.specs|
      modifies this`cpusets
      ensures node.MayDecide(pod, i, decision)
      ensures cpusets == node.Reconciled(old(cpusets), leaves, pod, i, decision, writeFails)
      ensures !ok ==> cpusets == old(cpusets) && (decision.Undecidable? || writeFails)
    {
      assert node.ContainerOf(pod, i).Valid();
      decision := SomeDecision(node.ContainerOf(pod, i));
      var cid := DetermineCid(pod.statuses, pod.specs[i].name);
      if cid == "" {
        return true, decision;
      }
      var badCpuset := node.Full();
      for k := 0 to |leaves|
        invariant cpusets == old(cpusets)
        invariant node.FirstMatch(leaves, cid, 0) == node.FirstMatch(leaves, cid, k)
      {
        var leaf := leaves[k];
        if Mentions(leaf, cid) {
          var currentCpuset := if leaf in cpusets then cpusets[leaf] else {};
          if badCpuset == currentCpuset {
            assert 0 in badCpuset;
            var decided := node.ContainerOf(pod, i).DetermineCorrectCpuset();
            decision := decided;
            if decided.Undecidable? || writeFails {
              return false, decision;
            }
            cpusets := cpusets[leaf := decided.cgroup];
          }
          return true, decision;
        }
      }
      return true, decision;
    }

    /** reconcileCpusets: an error for one container is only logged. No pods or no leaves
        stand for the queries that fail. */
    method ReconcileCpusets(pods: Option<seq<Pod>>, leaves: Option<seq<Path>>, failing: set<nat>)
      returns (ok: bool, ghost decisions: seq<Decision>)
      requires pods.Some? ==> node.HandlesAll(pods.value)
      modifies this`cpusets
      ensures ok <==> pods.Some? && leaves.Some?
      ensures !ok ==> cpusets == old(cpusets)
      ensures ok ==> node.IsPass(old(cpusets), leaves.value, Jobs(pods.value, |pods.value|), decisions, failing, cpusets)
    {
      decisions := [];
      if pods.None? || leaves.None? {
        return false, decisions;
      }
      decisions := ReconcilePods(pods.value, leaves.value, failing);
      return true, decisions;
    }

    /** The loop over the pods. */
    method ReconcilePods(pods: seq<Pod>, leaves: seq<Path>, failing: set<nat>) returns (ghost decisions: seq<Decision>)
      requires node.HandlesAll(pods)
      modifies this`cpusets
      ensures node.IsPass(old(cpusets), leaves, Jobs(pods, |pods|), decisions, failing, cpusets)
    {
      decisions := [];
      var count := 0;
      ghost var start, jobs := cpusets, Jobs(pods, 0);
      for p := 0 to |pods|
        invariant jobs == Jobs(pods, p) && count == |jobs|
        invariant node.IsPass(start, leaves, jobs, decisions, failing, cpusets)
      {
        assert node.Handles(pods[p]);
        count, decisions := ReconcilePod(start, jobs, decisions, leaves, pods[p], failing, count);
        jobs := Visited(jobs, pods[p], |pods[p].specs|);
      }
    }

    /** The inner loop, after the containers that were visited before. */
    method ReconcilePod(ghost start: map<Path, CPUSet>, ghost earlier: seq<Job>, ghost decided: seq<Decision>,
                        leaves: seq<Path>, pod: Pod, failing: set<nat>, visited: nat)
      returns (count: nat, ghost decisions: seq<Decision>)
      requires node.Handles(pod) && visited == |earlier|
      requires node.IsPass(start, leaves, earlier, decided, failing, cpusets)
      modifies this`cpusets
      ensures count == |Visited(earlier, pod, |pod.specs|)|
      ensures node.IsPass(start, leaves, Visited(earlier, pod, |pod.specs|), decisions, failing, cpusets)
    {
      count, decisions := visited, decided;
      for i := 0 to |pod.specs|
        invariant count == |Visited(earlier, pod, i)|
        invariant node.IsPass(start, leaves, Visited(earlier, pod, i), decisions, failing, cpusets)
      {
        ghost var before := cpusets;
        ghost var decision: Decision;
        var containerOk: bool;
        containerOk, decision := ReconcileContainer(leaves, pod, i, count in failing);
        node.PassOn(start, leaves, Visited(earlier, pod, i), decisions, failing, before, Job(pod, i), decision);
        count, decisions := count + 1, decisions + [decision];
      }
    }
  }
}
