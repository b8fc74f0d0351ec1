/** What the setter means to write into the cgroup tree for a pod, as functions of the
    node it runs on. */
module CgroupNode {
  import opened Wrappers
  import opened CpuSets
  import opened CgroupTree
  import opened CorrectCpuset
  import opened GoText

  const DOCKER_PREFIX := "docker://"
  const CONTAINERD_PREFIX := "containerd://"

  datatype Status = Status(name: string, containerID: string)

  /** A container of a pod, with the names of its requested resources. */
  datatype Spec = Spec(name: string, requests: set<string>)

  datatype Pod = Pod(uid: string, specs: seq<Spec>, statuses: seq<Status>)

  function TrimContainerPrefix(id: string): string {
    if HasPrefix(id, DOCKER_PREFIX) then TrimPrefix(id, DOCKER_PREFIX)
    else if HasPrefix(id, CONTAINERD_PREFIX) then TrimPrefix(id, CONTAINERD_PREFIX)
    else id
  }

  /** determineCid: the ID of the first status with the name. */
  function DetermineCid(statuses: seq<Status>, name: string): string {
    if statuses == [] then ""
    else if statuses[0].name == name then TrimContainerPrefix(statuses[0].containerID)
    else DetermineCid(statuses[1..], name)
  }

  lemma {:induction false} CidFromStatus(statuses: seq<Status>, name: string)
    requires DetermineCid(statuses, name) != ""
    ensures exists i :: 0 <= i < |statuses| && TrimContainerPrefix(statuses[i].containerID) == DetermineCid(statuses, name)
  {
    if statuses[0].name != name {
      CidFromStatus(statuses[1..], name);
      var i :| 0 <= i < |statuses[1..]|
        && TrimContainerPrefix(statuses[1..][i].containerID) == DetermineCid(statuses[1..], name);
      assert statuses[1..][i] == statuses[i + 1];
    }
  }

  /** The container ID that a runtime's text stands for. */
  ghost predicate StandsFor(text: string, cid: string) {
    || text == "docker://" + cid || text == "containerd://" + cid
    || (text == cid && !HasPrefix(cid, "docker://") && !HasPrefix(cid, "containerd://"))
  }

  lemma TrimExactly(text: string, cid: string)
    ensures TrimContainerPrefix(text) == cid <==> StandsFor(text, cid)
  {
    assert DOCKER_PREFIX[0] != CONTAINERD_PREFIX[0];
    PrefixTrimmed(text, DOCKER_PREFIX, cid);
    PrefixTrimmed(text, CONTAINERD_PREFIX, cid);
  }

  lemma PrefixTrimmed(text: string, prefix: string, cid: string)
    ensures text == prefix + cid <==> HasPrefix(text, prefix) && TrimPrefix(text, prefix) == cid
  {
    if HasPrefix(text, prefix) {
      assert text == prefix + text[|prefix|..];
    }
  }

  /** The first status with the name tells the ID; there is none without such a status. */
  lemma {:induction false} CidExactly(statuses: seq<Status>, name: string, i: nat)
    requires i <= |statuses| && forall j | 0 <= j < i :: statuses[j].name != name
    requires i < |statuses| ==> statuses[i].name == name
    ensures i == |statuses| ==> DetermineCid(statuses, name) == ""
    ensures i < |statuses| ==> forall cid :: StandsFor(statuses[i].containerID, cid) <==> DetermineCid(statuses, name) == cid
  {
    if i > 0 {
      CidExactly(statuses[1..], name, i - 1);
    } else if statuses != [] {
      forall cid ensures StandsFor(statuses[0].containerID, cid) <==> DetermineCid(statuses, name) == cid {
        TrimExactly(statuses[0].containerID, cid);
      }
    }
  }

  /** In particular, for every ID, with either runtime. */
  lemma CidOfRuntime(statuses: seq<Status>, name: string, i: nat, cid: string)
    requires i < |statuses| && statuses[i].name == name && forall j | 0 <= j < i :: statuses[j].name != name
    requires statuses[i].containerID == "docker://" + cid || statuses[i].containerID == "containerd://" + cid
    ensures DetermineCid(statuses, name) == cid
  {
    CidExactly(statuses, name, i);
    assert StandsFor(statuses[i].containerID, cid);
  }

  /** containerIDInPodStatus */
  predicate IDInStatus(statuses: seq<Status>, dirName: string) {
    exists i | 0 <= i < |statuses| :: Contains(dirName, TrimContainerPrefix(statuses[i].containerID))
  }

  lemma IDInStatusExactly(statuses: seq<Status>, dirName: string)
    ensures IDInStatus(statuses, dirName)
       <==> exists i, cid :: 0 <= i < |statuses| && StandsFor(statuses[i].containerID, cid) && Contains(dirName, cid)
  {
    forall i | 0 <= i < |statuses| ensures StandsFor(statuses[i].containerID, TrimContainerPrefix(statuses[i].containerID)) {
      TrimExactly(statuses[i].containerID, TrimContainerPrefix(statuses[i].containerID));
    }
    if i, cid :| 0 <= i < |statuses| && StandsFor(statuses[i].containerID, cid) && Contains(dirName, cid) {
      TrimExactly(statuses[i].containerID, cid);
    }
  }

  /** The set that prints as 0-(n-1). */
  function FirstCPUs(n: nat): (s: CPUSet)
    ensures forall c: nat :: c in s <==> c < n
  {
    if n == 0 then {} else FirstCPUs(n - 1) + {n - 1}
  }

  /** A container of a pod, as the reconciliation visits it. */
  datatype Job = Job(pod: Pod, i: nat)

  /** The jobs visited before and the first m containers of a pod. */
  function Visited(earlier: seq<Job>, pod: Pod, m: nat): (jobs: seq<Job>)
    requires m <= |pod.specs|
    ensures |jobs| == |earlier| + m
    ensures forall job :: job in jobs <==> job in earlier || (job.pod == pod && job.i < m)
  {
    if m == 0 then earlier else Visited(earlier, pod, m - 1) + [Job(pod, m - 1)]
  }

  /** The containers of the first n pods, pod by pod. */
  function Jobs(pods: seq<Pod>, n: nat): (jobs: seq<Job>)
    requires n <= |pods|
    ensures forall job :: job in jobs <==> job.pod in pods[..n] && job.i < |job.pod.specs|
  {
    if n == 0 then [] else Visited(Jobs(pods, n - 1), pods[n - 1], |pods[n - 1].specs|)
  }

  /** How one attempt to adjust a pod ends. */
  datatype Outcome = Done | Failed | Crashed

  datatype Node = Node(setter: Setter, tree: Tree) {

    ghost predicate Valid() {
      tree.Valid() && setter.numCPU > 0
    }

    function Directories(): set<Path> {
      set p | p in tree.dirs
    }

    /** What the setter looks at for a container of the pod. */
    function ContainerOf(pod: Pod, i: nat): Container
      requires i < |pod.specs|
    {
      Container(setter, pod.uid, pod.specs[i].name, pod.specs[i].requests)
    }

    /** The resource names of the pod can be split. */
    ghost predicate Handles(pod: Pod) {
      forall i | 0 <= i < |pod.specs| :: ContainerOf(pod, i).Valid()
    }

    ghost predicate HandlesAll(pods: seq<Pod>) {
      forall p {:trigger Handles(pods[p])} | 0 <= p < |pods| :: Handles(pods[p])
    }

    /** The CPU set of a node whose container was just (re)started. */
    function Full(): CPUSet {
      FirstCPUs(setter.numCPU)
    }

    ghost predicate MayDecide(pod: Pod, i: nat, decision: Decision) {
      i < |pod.specs| && ContainerOf(pod, i).May(decision)
    }

    /** A CPU set that the setter may want for a container of the pod. */
    ghost predicate MayHold(pod: Pod, i: nat, cpus: CPUSet) {
      i < |pod.specs| && ContainerOf(pod, i).MayHold(cpus)
    }

    function Cid(pod: Pod, i: nat): string
      requires i < |pod.specs|
    {
      DetermineCid(pod.statuses, pod.specs[i].name)
    }

    predicate Gathered(pod: Pod, names: set<string>, i: nat)
      requires i < |pod.specs|
    {
      pod.specs[i].name in names
    }

    // ---- The worker ----

    /** Where the worker writes a container's CPU set, and what. */
    ghost function WriteOf(pod: Pod, i: nat, cpus: CPUSet): map<Path, CPUSet>
      requires Valid() && i < |pod.specs|
    {
      if cpus == {} || Cid(pod, i) == "" || tree.Target(Cid(pod, i)).None? then map[]
      else map[tree.Target(Cid(pod, i)).value := cpus]
    }

    /** The same for a decision. */
    ghost function WriteFor(pod: Pod, i: nat, decision: Decision): map<Path, CPUSet>
      requires Valid() && i < |pod.specs|
    {
      if decision.Undecidable? then map[] else WriteOf(pod, i, decision.cgroup)
    }

    /** How the worker gets on with a container after this decision, as long as no I/O fails. */
    ghost function OutcomeOf(pod: Pod, i: nat, decision: Decision): Outcome
      requires Valid() && i < |pod.specs|
    {
      if decision.Undecidable? then Failed
      else if Cid(pod, i) == "" then Crashed
      else if decision.cgroup != {} && tree.Target(Cid(pod, i)).None? then Failed
      else Done
    }

    /** A directory beside the given one whose name holds no ID of the pod. */
    predicate BesideWithoutID(statuses: seq<Status>, at: nat, i: nat)
      requires at < |tree.dirs| && i < |tree.dirs|
    {
      at > 0 && i > 0 && tree.dirs[i] != [] && Parent(tree.dirs[i]) == Parent(tree.dirs[at])
      && !IDInStatus(statuses, Name(tree.dirs[i]))
    }

    /** getInfraContainerPath among the first m directories: the last such one. */
    function InfraDirectory(statuses: seq<Status>, at: nat, m: nat): (infra: Option<Path>)
      requires at < |tree.dirs| && m <= |tree.dirs|
    {
      if m == 0 then None
      else if BesideWithoutID(statuses, at, m - 1) then Some(tree.dirs[m - 1])
      else InfraDirectory(statuses, at, m - 1)
    }

    /** What the worker may write while it adjusts the pod, in one attempt or another. */
    ghost predicate MayWrite(pod: Pod, names: set<string>, p: Path, cpus: CPUSet)
      requires Valid()
    {
      || (exists i: nat {:trigger MayWriteFor(pod, names, i, p, cpus)} :: MayWriteFor(pod, names, i, p, cpus))
      || (exists a: Attempt {:trigger a.IsFor(this, pod, names)} ::
            a.IsFor(this, pod, names) && p in a.InfraWrite() && a.InfraWrite()[p] == cpus)
    }

    ghost predicate MayWriteFor(pod: Pod, names: set<string>, i: nat, p: Path, cpus: CPUSet)
      requires Valid()
    {
      i < |pod.specs| && Gathered(pod, names, i) && MayHold(pod, i, cpus) && p in WriteOf(pod, i, cpus)
    }

    /** Directory p holds what it held, or what one of these writes puts there. */
    ghost predicate PartlyAt(pod: Pod, names: set<string>, before: map<Path, CPUSet>, after: map<Path, CPUSet>, p: Path)
      requires Valid() && p in before && p in after
    {
      after[p] == before[p] || MayWrite(pod, names, p, after[p])
    }

    /** Some such writes have been made, in some order. */
    ghost predicate Partly(pod: Pod, names: set<string>, before: map<Path, CPUSet>, after: map<Path, CPUSet>)
      requires Valid()
    {
      && after.Keys == before.Keys
      && forall p {:trigger PartlyAt(pod, names, before, after, p)} | p in after :: PartlyAt(pod, names, before, after, p)
    }

    /** An attempt has succeeded, after others that may have left some of their writes. */
    ghost predicate IsSuccess(pod: Pod, names: set<string>, before: map<Path, CPUSet>, after: map<Path, CPUSet>)
      requires Valid()
    {
      exists a: Attempt, between: map<Path, CPUSet> {:trigger a.IsFor(this, pod, names), Partly(pod, names, before, between)} ::
        && a.IsFor(this, pod, names) && a.Expected() == Done
        && Partly(pod, names, before, between) && after == between + a.AllWrites()
    }

    /** The outcome of some attempt whose I/O works. */
    ghost predicate MayEnd(pod: Pod, names: set<string>, outcome: Outcome)
      requires Valid()
    {
      exists a: Attempt {:trigger a.IsFor(this, pod, names)} :: a.IsFor(this, pod, names) && a.Expected() == outcome
    }

    /** Whether a set is empty, and so not written, is the same in every attempt. */
    ghost predicate Steady(pod: Pod, names: set<string>)
      requires Valid()
    {
      && (forall i, c, d | 0 <= i < |pod.specs| && Gathered(pod, names, i) && MayHold(pod, i, c) && MayHold(pod, i, d) ::
            c == {} <==> d == {})
      && (forall c, d | setter.MayBeDefault(c) && setter.MayBeDefault(d) :: c == {} <==> d == {})
    }

    // ---- The reconciliation ----

    /** The first leaf from position k on whose path mentions the ID. */
    function FirstMatch(leaves: seq<Path>, cid: string, k: nat): (leaf: Option<Path>)
      requires k <= |leaves|
      ensures leaf.Some? ==> leaf.value in leaves && Mentions(leaf.value, cid)
      ensures leaf.Some? ==> exists j :: k <= j < |leaves| && leaf.value == leaves[j] && forall i | k <= i < j :: !Mentions(leaves[i], cid)
      ensures leaf.None? ==> forall j | k <= j < |leaves| :: !Mentions(leaves[j], cid)
      decreases |leaves| - k
    {
      if k == |leaves| then None
      else if Mentions(leaves[k], cid) then Some(leaves[k])
      else FirstMatch(leaves, cid, k + 1)
    }

    /** The leaf that the reconciliation inspects for a container. */
    function Inspected(leaves: seq<Path>, pod: Pod, i: nat): Option<Path>
      requires i < |pod.specs|
    {
      if Cid(pod, i) == "" then None else FirstMatch(leaves, Cid(pod, i), 0)
    }

    /** The state after one container, given the decision for it: a full set is replaced by
        the decided one, if there is one and it can be written. */
    ghost function Reconciled(state: map<Path, CPUSet>, leaves: seq<Path>, pod: Pod, i: nat, decision: Decision,
                              writeFails: bool): map<Path, CPUSet>
      requires i < |pod.specs|
    {
      var leaf := Inspected(leaves, pod, i);
      if leaf.Some? && leaf.value in state && state[leaf.value] == Full() && decision.Decided? && !writeFails
      then state[leaf.value := decision.cgroup]
      else state
    }

    /** Decisions that the setter may make for these containers, one after the other. */
    ghost predicate MayDecideAll(jobs: seq<Job>, decisions: seq<Decision>) {
      && |decisions| == |jobs|
      && forall n | 0 <= n < |jobs| && jobs[n].i < |jobs[n].pod.specs| :: MayDecide(jobs[n].pod, jobs[n].i, decisions[n])
    }

    /** The state after a pass over some containers; `failing` holds the positions of those
        whose write fails. */
    ghost function Pass(state: map<Path, CPUSet>, leaves: seq<Path>, jobs: seq<Job>, decisions: seq<Decision>,
                        failing: set<nat>): map<Path, CPUSet>
      requires |decisions| == |jobs|
    {
      if jobs == [] then state else
        var n := |jobs| - 1;
        var before, job := Pass(state, leaves, jobs[..n], decisions[..n], failing), jobs[n];
        if job.i < |job.pod.specs| then Reconciled(before, leaves, job.pod, job.i, decisions[n], n in failing) else before
    }

    /** A pass over these containers leads from one state to the other, with decisions that
        the setter may make. */
    ghost predicate IsPass(start: map<Path, CPUSet>, leaves: seq<Path>, jobs: seq<Job>, decisions: seq<Decision>,
                           failing: set<nat>, after: map<Path, CPUSet>)
    {
      MayDecideAll(jobs, decisions) && after == Pass(start, leaves, jobs, decisions, failing)
    }

    lemma PassOn(start: map<Path, CPUSet>, leaves: seq<Path>, jobs: seq<Job>, decisions: seq<Decision>, failing: set<nat>,
                 before: map<Path, CPUSet>, job: Job, decision: Decision)
      requires IsPass(start, leaves, jobs, decisions, failing, before)
      requires job.i < |job.pod.specs| && MayDecide(job.pod, job.i, decision)
      ensures IsPass(start, leaves, jobs + [job], decisions + [decision], failing,
                     Reconciled(before, leaves, job.pod, job.i, decision, |jobs| in failing))
    {
      assert (jobs + [job])[..|jobs|] == jobs && (decisions + [decision])[..|jobs|] == decisions;
    }
  }

  // ---- One attempt of the worker ----

  /** One attempt to adjust a pod: the decisions it makes for the containers, and the CPUs
      of the default pool it selects for the infra container. */
  datatype Attempt = Attempt(node: Node, pod: Pod, names: set<string>, decisions: seq<Decision>, defaultCPUs: CPUSet) {

    ghost predicate IsFor(node: Node, pod: Pod, names: set<string>) {
      && this.node == node && this.pod == pod && this.names == names
      && |decisions| == |pod.specs| && (forall i | 0 <= i < |decisions| :: node.MayDecide(pod, i, decisions[i]))
      && node.setter.MayBeDefault(defaultCPUs)
    }

    predicate Gathered(i: nat)
      requires i < |pod.specs|
    {
      node.Gathered(pod, names, i)
    }

    function Decision(i: nat): Decision {
      if i < |decisions| then decisions[i] else Undecidable
    }

    /** How the worker gets on with one container, as long as no I/O fails. */
    ghost function ContainerOutcome(i: nat): Outcome
      requires node.Valid() && i < |pod.specs|
    {
      node.OutcomeOf(pod, i, Decision(i))
    }

    /** What the worker writes for one container. */
    ghost function Write(i: nat): map<Path, CPUSet>
      requires node.Valid() && i < |pod.specs|
    {
      node.WriteFor(pod, i, Decision(i))
    }

    /** What it writes for the gathered ones among the first m containers. */
    ghost function Writes(m: nat): map<Path, CPUSet>
      requires node.Valid() && m <= |pod.specs|
    {
      if m == 0 then map[]
      else if Gathered(m - 1) then Writes(m - 1) + Write(m - 1)
      else Writes(m - 1)
    }

    /** The directory from which the infra container is searched: that of the last one of
        the gathered containers, unless its CPU set is empty. */
    ghost function SearchDirectory(m: nat): (at: Option<nat>)
      requires node.Valid() && m <= |pod.specs|
      ensures at.Some? ==> at.value < |node.tree.dirs|
    {
      if m == 0 then None
      else if !Gathered(m - 1) then SearchDirectory(m - 1)
      else if Decision(m - 1).Undecidable? || Decision(m - 1).cgroup == {} then None
      else node.tree.LastTop(node.Cid(pod, m - 1), |node.tree.dirs|)
    }

    /** How the attempt ends after m containers, and at its end, if no I/O fails. */
    ghost function OutcomeAfter(m: nat): Outcome
      requires node.Valid() && m <= |pod.specs|
    {
      if m == 0 then Done
      else if OutcomeAfter(m - 1) != Done || !Gathered(m - 1) then OutcomeAfter(m - 1)
      else ContainerOutcome(m - 1)
    }

    ghost function InfraOutcome(): Outcome
      requires node.Valid()
    {
      if defaultCPUs == {} then Done else
        match SearchDirectory(|pod.specs|)
        case None => Failed
        case Some(at) => if node.InfraDirectory(pod.statuses, at, |node.tree.dirs|).None? then Failed else Done
    }

    ghost function InfraWrite(): map<Path, CPUSet>
      requires node.Valid()
    {
      if defaultCPUs == {} || InfraOutcome() != Done then map[] else
        var at := SearchDirectory(|pod.specs|).value;
        map[node.InfraDirectory(pod.statuses, at, |node.tree.dirs|).value := defaultCPUs]
    }

    ghost function Expected(): Outcome
      requires node.Valid()
    {
      if OutcomeAfter(|pod.specs|) != Done then OutcomeAfter(|pod.specs|) else InfraOutcome()
    }

    /** All writes of a successful attempt. */
    ghost function AllWrites(): map<Path, CPUSet>
      requires node.Valid()
    {
      Writes(|pod.specs|) + InfraWrite()
    }

    /** The search starts from the directory of the last gathered container, wherever the
        others are, and only if that container got a set to be written. */
    lemma {:induction false} SearchExactly(i: nat, m: nat)
      requires node.Valid() && i < m <= |pod.specs| && Gathered(i) && forall k | i < k < m :: !Gathered(k)
      ensures SearchDirectory(m) == if Decision(i).Decided? && Decision(i).cgroup != {}
                                    then node.tree.LastTop(node.Cid(pod, i), |node.tree.dirs|) else None
    {
      if i < m - 1 {
        assert !Gathered(m - 1);
        SearchExactly(i, m - 1);
      }
    }

    /** So without such a set the default pool's CPUs cannot be written, if there are any. */
    lemma InfraFails(i: nat)
      requires node.Valid() && i < |pod.specs| && Gathered(i) && forall k | i < k < |pod.specs| :: !Gathered(k)
      requires Decision(i).Decided? && Decision(i).cgroup == {} && defaultCPUs != {}
      ensures InfraOutcome() == Failed && Expected() != Done
    {
      SearchExactly(i, |pod.specs|);
    }

    lemma {:induction false} FirstOutcome(i: nat, m: nat)
      requires node.Valid() && i <= m <= |pod.specs| && OutcomeAfter(i) != Done
      ensures OutcomeAfter(m) == OutcomeAfter(i)
    {
      if i < m {
        FirstOutcome(i, m - 1);
      }
    }

    lemma {:induction false} AllDone(i: nat, m: nat)
      requires node.Valid() && i < m <= |pod.specs| && Gathered(i) && OutcomeAfter(m) == Done
      ensures ContainerOutcome(i) == Done
    {
      if i < m - 1 {
        AllDone(i, m - 1);
      }
    }

    /** An attempt does not succeed when a container whose set is not empty has no directory. */
    lemma NoDirectory(i: nat)
      requires node.Valid() && i < |pod.specs| && Gathered(i) && Decision(i).Decided? && Decision(i).cgroup != {}
      requires forall p | p in node.tree.dirs :: !Mentions(p, node.Cid(pod, i))
      ensures Expected() != Done
    {
      if Expected() == Done {
        AllDone(i, |pod.specs|);
      }
    }

    lemma {:induction false} WrittenKeys(i: nat, m: nat)
      requires node.Valid() && i < m <= |pod.specs| && Gathered(i)
      ensures Write(i).Keys <= Writes(m).Keys
    {
      if i < m - 1 {
        WrittenKeys(i, m - 1);
      }
    }

    /** More decisions do not change what happened before them. */
    lemma {:induction false} SameUntil(longer: Attempt, m: nat)
      requires node.Valid() && m <= |pod.specs| && m <= |decisions|
      requires decisions <= longer.decisions && longer == this.(decisions := longer.decisions, defaultCPUs := longer.defaultCPUs)
      ensures longer.Writes(m) == Writes(m) && longer.SearchDirectory(m) == SearchDirectory(m)
      ensures longer.OutcomeAfter(m) == OutcomeAfter(m)
    {
      if m > 0 {
        SameUntil(longer, m - 1);
        assert longer.decisions[m - 1] == decisions[m - 1];
      }
    }

    /** A steady write is made in every successful attempt. */
    lemma WritesAll(i: nat, p: Path, cpus: CPUSet)
      requires node.Valid() && IsFor(node, pod, names) && Expected() == Done && node.Steady(pod, names)
      requires node.MayWriteFor(pod, names, i, p, cpus)
      ensures p in AllWrites()
    {
      AllDone(i, |pod.specs|);
      assert node.MayDecide(pod, i, decisions[i]);
      assert Decided(Decision(i).config, Decision(i).cgroup) == Decision(i);
      assert node.MayHold(pod, i, Decision(i).cgroup);
      WrittenKeys(i, |pod.specs|);
    }

    /** Both attempts look for the infra container from the same directory, if at all. */
    lemma {:induction false} SameSearch(other: Attempt, m: nat)
      requires node.Valid() && m <= |pod.specs| && other.node == node && other.pod == pod && other.names == names
      requires SearchDirectory(m).Some? && other.SearchDirectory(m).Some?
      ensures SearchDirectory(m) == other.SearchDirectory(m)
    {
      if !Gathered(m - 1) {
        SameSearch(other, m - 1);
      }
    }

    lemma WritesInfra(other: Attempt, p: Path)
      requires node.Valid() && IsFor(node, pod, names) && Expected() == Done && node.Steady(pod, names)
      requires other.IsFor(node, pod, names) && p in other.InfraWrite()
      ensures p in AllWrites()
    {
      SameSearch(other, |pod.specs|);
    }

    /** The writes of this attempt cover whatever earlier attempts may have written. */
    ghost predicate CoversAll()
      requires node.Valid()
    {
      forall p, cpus {:trigger node.MayWrite(pod, names, p, cpus)} | node.MayWrite(pod, names, p, cpus) :: p in AllWrites()
    }

    ghost predicate IsClean(before: map<Path, CPUSet>, between: map<Path, CPUSet>)
      requires node.Valid()
    {
      between + AllWrites() == before + AllWrites()
    }

    /** After this attempt the state is that of one clean attempt, whatever earlier attempts
        left, exactly when its writes cover theirs. */
    lemma CleanExactly()
      requires node.Valid()
      ensures CoversAll() <==>
        forall before, between {:trigger node.Partly(pod, names, before, between)} | node.Partly(pod, names, before, between) ::
          IsClean(before, between)
    {
      if CoversAll() {
        forall before, between | node.Partly(pod, names, before, between) ensures IsClean(before, between) {
          Covered(before, between);
        }
      } else {
        var p, cpus := SomeUncovered();
        Uncovered(p, cpus, map[p := {}], map[p := cpus]);
      }
    }

    lemma SomeUncovered() returns (p: Path, cpus: CPUSet)
      requires node.Valid() && !CoversAll()
      ensures node.MayWrite(pod, names, p, cpus) && p !in AllWrites()
    {
      p, cpus :| node.MayWrite(pod, names, p, cpus) && p !in AllWrites();
    }

    lemma Uncovered(p: Path, cpus: CPUSet, before: map<Path, CPUSet>, between: map<Path, CPUSet>)
      requires node.Valid() && node.MayWrite(pod, names, p, cpus) && p !in AllWrites()
      requires before == map[p := {}] && between == map[p := cpus]
      ensures node.Partly(pod, names, before, between) && !IsClean(before, between)
    {
      assert node.PartlyAt(pod, names, before, between, p);
      assert cpus != {};
      assert (before + AllWrites())[p] == {} && (between + AllWrites())[p] == cpus;
    }

    lemma Covered(before: map<Path, CPUSet>, between: map<Path, CPUSet>)
      requires node.Valid() && CoversAll() && node.Partly(pod, names, before, between)
      ensures IsClean(before, between)
    {
      forall p | p in between && p !in AllWrites() ensures between[p] == before[p] {
        assert node.PartlyAt(pod, names, before, between, p);
      }
    }

    /** So it is when a set is empty in every attempt or in none: then whatever failed
        attempts wrote is written over. */
    lemma SuccessAfterFailures(before: map<Path, CPUSet>, between: map<Path, CPUSet>)
      requires node.Valid() && IsFor(node, pod, names) && Expected() == Done && node.Steady(pod, names)
      requires node.Partly(pod, names, before, between)
      ensures IsClean(before, between)
    {
      forall p, cpus | node.MayWrite(pod, names, p, cpus) ensures p in AllWrites() {
        if i: nat :| node.MayWriteFor(pod, names, i, p, cpus) {
          WritesAll(i, p, cpus);
        } else {
          var other: Attempt :| other.IsFor(node, pod, names) && p in other.InfraWrite() && other.InfraWrite()[p] == cpus;
          WritesInfra(other, p);
        }
      }
      Covered(before, between);
    }
  }
}
