/** Every container on which the programs agree can be patched, adjusted and started: the
    premises of the end-to-end statement can be met together. */
module EndToEndExample {
  import opened Wrappers
  import opened CgroupNode
  import opened CgroupTree
  import opened DevicePlugin
  import opened EndToEnd
  import opened GoText
  import opened PodPatch
  import opened PoolRequests
  import opened WebhookEffect
  import CfsLimit
  import CgroupRuns
  import CorrectCpuset
  import CpusetOrder
  import Handshake
  import HandshakeExample
  import Pools

  // ---- A small tree ----

  /** A pod's directory with one for its infra container and one for a container. */
  function SmallTree(pod: string, infra: string, cid: string): Tree {
    Tree([[], [pod], [pod, infra], [pod, cid]])
  }

  ghost predicate AreNames(pod: string, infra: string, cid: string) {
    cid != "" && '/' !in cid && infra != cid && !Contains(pod, cid) && !Contains(infra, cid)
  }

  lemma SmallTreeValid(pod: string, infra: string, cid: string)
    requires infra != cid
    ensures SmallTree(pod, infra, cid).Valid()
  {
    var t := SmallTree(pod, infra, cid);
    var dirs := t.dirs;
    assert dirs[0] == [] && dirs[1] == [pod] && dirs[2] == [pod, infra] && dirs[3] == [pod, cid];
    assert Parent(dirs[1]) == dirs[0] && Parent(dirs[2]) == dirs[1] && Parent(dirs[3]) == dirs[1];
    assert dirs[2][1] == infra && dirs[3][1] == cid;
    assert t.HasParent(1) && t.HasParent(2) && t.HasParent(3);
    assert !t.Below(2, 3);
  }

  lemma WholeName(s: string)
    ensures Contains(s, s)
  {
    assert s[0..0 + |s|] == s;
    assert OccursAt(s, s, 0);
  }

  /** Only the container's own directory mentions its ID. */
  lemma SmallMentions(pod: string, infra: string, cid: string)
    requires AreNames(pod, infra, cid)
    ensures !Mentions([], cid) && !Mentions([pod], cid) && !Mentions([pod, infra], cid) && Mentions([pod, cid], cid)
  {
    WholeName(cid);
    assert CgroupTree.Text([]) == "" && !Mentions([], cid);
    MentionedByName([pod], cid);
    MentionedByName([pod, infra], cid);
    MentionedByName([pod, cid], cid);
    assert Parent([pod]) == [] && Parent([pod, infra]) == [pod] && Parent([pod, cid]) == [pod];
  }

  lemma SmallTreeOwned(pod: string, infra: string, cid: string)
    requires AreNames(pod, infra, cid)
    ensures var t := SmallTree(pod, infra, cid);
      t.Valid() && t.Owns(cid) && t.LastTop(cid, 4) == Some(3) && t.Target(cid).Some?
  {
    var t := SmallTree(pod, infra, cid);
    SmallTreeValid(pod, infra, cid);
    SmallMentions(pod, infra, cid);
    assert t.dirs[0] == [] && t.dirs[1] == [pod] && t.dirs[2] == [pod, infra] && t.dirs[3] == [pod, cid];
    assert Parent(t.dirs[3]) == [pod];
    assert t.IsTop(cid, 3);
  }

  /** A node with this tree, and a pod with one container in it. */
  function OneContainer(setter: CorrectCpuset.Setter, podUID: string, name: string, requested: set<string>, tree: Tree,
                        id: string): CgroupRuns.System
  {
    CgroupRuns.System(Node(setter, tree), [Job(OnePod(podUID, name, requested, id), 0)])
  }

  function OnePod(podUID: string, name: string, requested: set<string>, id: string): CgroupNode.Pod {
    CgroupNode.Pod(podUID, [Spec(name, requested)], [Status(name, id)])
  }

  lemma OneContainerValid(setter: CorrectCpuset.Setter, podUID: string, name: string, requested: set<string>, tree: Tree,
                          id: string)
    requires setter.numCPU > 0 && tree.Valid() && tree.Owns(TrimContainerPrefix(id)) && '/' !in TrimContainerPrefix(id)
    requires TrimContainerPrefix(id) != ""
    ensures var sys, pod := OneContainer(setter, podUID, name, requested, tree, id), OnePod(podUID, name, requested, id);
      sys.Valid() && sys.Lists(pod) && sys.node.Cid(pod, 0) == TrimContainerPrefix(id)
  {
    var sys, pod := OneContainer(setter, podUID, name, requested, tree, id), OnePod(podUID, name, requested, id);
    assert sys.node.Cid(pod, 0) == TrimContainerPrefix(id);
    forall k ensures sys.OwnsDirectory(k) {
    }
    forall k, l ensures sys.Distinct(k, l) {
    }
    forall i: nat | i < |pod.specs| ensures sys.IsListed(pod, i) {
      assert sys.jobs[0] == Job(pod, 0);
    }
  }

  /** An attempt with this decision succeeds. */
  lemma Succeeds(a: Attempt, cid: string, infra: Path)
    requires a.node.Valid() && |a.pod.specs| == 1 && a.Gathered(0) && a.Decision(0).Decided? && a.Decision(0).cgroup != {}
    requires a.node.Cid(a.pod, 0) == cid != "" && a.node.tree.Target(cid).Some?
    requires a.node.tree.LastTop(cid, |a.node.tree.dirs|).Some?
    requires a.node.InfraDirectory(a.pod.statuses, a.node.tree.LastTop(cid, |a.node.tree.dirs|).value, |a.node.tree.dirs|)
          == Some(infra)
    ensures a.Expected() == Done
  {
    assert a.OutcomeAfter(0) == Done && a.OutcomeAfter(1) == Done;
    assert a.SearchDirectory(1) == a.node.tree.LastTop(cid, |a.node.tree.dirs|);
  }

  lemma InfraFound(node: Node, statuses: seq<Status>, pod: string, infra: string, cid: string)
    requires AreNames(pod, infra, cid) && node.tree == SmallTree(pod, infra, cid)
    requires |statuses| == 1 && TrimContainerPrefix(statuses[0].containerID) == cid
    ensures node.InfraDirectory(statuses, 3, 4) == Some([pod, infra])
  {
    SmallTreeParts(node.tree, pod, infra, cid);
    WholeName(cid);
    OneStatus(statuses, cid, cid);
    OneStatus(statuses, infra, cid);
    SecondLast(node, statuses, cid, infra);
  }

  lemma OneStatus(statuses: seq<Status>, dirName: string, cid: string)
    requires |statuses| == 1 && TrimContainerPrefix(statuses[0].containerID) == cid
    ensures IDInStatus(statuses, dirName) <==> Contains(dirName, cid)
  {
    if Contains(dirName, cid) {
      assert Contains(dirName, TrimContainerPrefix(statuses[0].containerID));
    }
    if i :| 0 <= i < |statuses| && Contains(dirName, TrimContainerPrefix(statuses[i].containerID)) {
      assert i == 0;
    }
  }

  lemma SecondLast(node: Node, statuses: seq<Status>, cid: string, infra: string)
    requires |node.tree.dirs| == 4 && node.tree.dirs[2] != [] && node.tree.dirs[3] != []
    requires Parent(node.tree.dirs[2]) == Parent(node.tree.dirs[3])
    requires Name(node.tree.dirs[2]) == infra && Name(node.tree.dirs[3]) == cid
    requires IDInStatus(statuses, cid) && !IDInStatus(statuses, infra)
    ensures node.InfraDirectory(statuses, 3, 4) == Some(node.tree.dirs[2])
  {
    assert !node.BesideWithoutID(statuses, 3, 3) && node.BesideWithoutID(statuses, 3, 2);
    assert node.InfraDirectory(statuses, 3, 3) == Some(node.tree.dirs[2]);
  }

  lemma SmallTreeParts(t: Tree, pod: string, infra: string, cid: string)
    requires t == SmallTree(pod, infra, cid)
    ensures |t.dirs| == 4 && t.dirs[2] == [pod, infra] && t.dirs[3] == [pod, cid]
    ensures Parent(t.dirs[2]) == Parent(t.dirs[3]) && Name(t.dirs[2]) == infra && Name(t.dirs[3]) == cid
  {
    assert Parent([pod, infra]) == [pod] && Parent([pod, cid]) == [pod];
  }

  const ID := "c1"

  /** The same as the runtime writes it. */
  const STATUS_ID := "containerd://c1"

  lemma SomeNames()
    ensures AreNames("pod", "infra", ID) && TrimContainerPrefix(STATUS_ID) == ID
  {
    assert STATUS_ID == "containerd://" + ID;
    TrimExactly(STATUS_ID, ID);
    assert ID[1] == '1' && '1' !in "pod" && '1' !in "infra";
    HasLetter("pod", ID, 1);
    HasLetter("infra", ID, 1);
    assert |ID| == 2;
  }

  lemma HasLetter(s: string, sub: string, k: nat)
    requires k < |sub|
    ensures Contains(s, sub) ==> sub[k] in s
  {
    if i :| 0 <= i <= |s| && OccursAt(s, sub, i) {
      assert s[i..i + |sub|][k] == s[i + k];
    }
  }

  /** A pod that was adjusted with a decision the setter may make for the container. */
  lemma AdjustedExists(q: Handshake.Request, d: CorrectCpuset.Decision) returns (sys: CgroupRuns.System, a: Attempt)
    requires q.node.numCPU > 0 && Handshake.AsContainer(q).May(d) && d.Decided? && d.cgroup != {}
    ensures IsAdjusted(q, sys, 0, a) && a.decisions == [d]
  {
    var tree := SmallTree("pod", "infra", ID);
    SomeNames();
    SmallTreeOwned("pod", "infra", ID);
    sys := OneContainer(q.Setter(), q.podUID, q.name, q.requested, tree, STATUS_ID);
    var pod := OnePod(q.podUID, q.name, q.requested, STATUS_ID);
    OneContainerValid(q.Setter(), q.podUID, q.name, q.requested, tree, STATUS_ID);
    var pool := CpusetOrder.SelectsSome(q.node.pools, Pools.DEFAULT_POOL_ID);
    a := Attempt(sys.node, pod, {q.name}, [d], pool.cpus);
    InfraFound(sys.node, pod.statuses, "pod", "infra", ID);
    Succeeds(a, ID, ["pod", "infra"]);
    assert sys.node.ContainerOf(pod, 0) == Handshake.AsContainer(q);
    assert sys.node.MayDecide(pod, 0, d);
    assert a.IsFor(sys.node, pod, {q.name});
  }

  /** A container as it comes to the webhook, and its settings. */
  lemma PatchedExists(q: Handshake.Request) returns (s: Setting, c: Container)
    ensures IsPatched(q, s, c)
  {
    var requests := CfsLimit.ReadingOf(q.limits, CfsLimit.AvoidingChoice(q.limits));
    s := Setting(requests, 0, false, "");
    c := Container(q.name, None, None, None, None, None, None, q.limits);
    assert Items(c.env) == [];
  }

  /** The premises of the end-to-end statement for one container. */
  ghost predicate Meets(q: Handshake.Request, env: Env, s: Setting, c: Container, cpuPools: string,
                        sys: CgroupRuns.System, a: Attempt) {
    IsOrdinary(q, env) && IsPatched(q, s, c) && IsCpuPools(s, c, cpuPools) && IsAdjusted(q, sys, 0, a)
  }

  /** For every container on which the programs agree, they can be met. */
  lemma MeetsFor(q: Handshake.Request, env: Env)
    requires IsOrdinary(q, env)
    ensures exists s, c, cpuPools, sys, a :: Meets(q, env, s, c, cpuPools, sys, a)
  {
    var s, c := PatchedExists(q);
    Handshake.AmountsPositive(q, s.requests);
    CpuPoolsValue(q, s, c, CpuPools(s.requests));
    Handshake.OrdinaryHandshake(q, s.requests, env);
    var d :| Handshake.AsContainer(q).May(d) && Handshake.IsAwaited(s.requests, env, d) && d.cgroup != {};
    var sys, a := AdjustedExists(q, d);
    assert Meets(q, env, s, c, CpuPools(s.requests), sys, a);
  }

  /** So they are met on a node with the sample configuration. */
  lemma MetOnSample(node: Handshake.Node, device: HandshakeExample.Device)
    requires HandshakeExample.IsSample(node)
    ensures exists q: Handshake.Request, env, s, c, cpuPools, sys, a :: q.node == node && Meets(q, env, s, c, cpuPools, sys, a)
  {
    HandshakeExample.MixedExists(node, device);
    var q: Handshake.Request, env: Env :| HandshakeExample.MeetsMixed(q, env) && q.node == node;
    assert IsOrdinary(q, env);
    MeetsFor(q, env);
  }
}
