/** What the worker, the reconciliation and restarting containers do to the cgroup tree
    together, however their steps interleave. */
module CgroupRuns {
  import opened Wrappers
  import opened CpuSets
  import opened CgroupTree
  import opened CgroupNode
  import opened CorrectCpuset
  import opened CpusetOrder
  import opened GoText

  datatype Event =
    /** The worker writes a CPU set it decided on for a container, or the CPUs of the default
        pool into the infra container which it finds beside the container. */
    | WorkerWrite(k: nat, cpus: CPUSet)
    | InfraWrite(k: nat, cpus: CPUSet)
    /** The reconciliation reads the leaf of a container, and some time later writes what it
        decided on for it. */
    | Inspect(k: nat)
    | Overwrite(k: nat, cpus: CPUSet)
    | Restart(k: nat)

  /** The CPU sets in the tree, and the containers whose leaf was found to be full. */
  datatype State = State(cpusets: map<Path, CPUSet>, pending: set<nat>)

  /** A node with the containers of all its pods. */
  datatype System = System(node: Node, jobs: seq<Job>) {

    function Cid(k: nat): string
      requires k < |jobs|
    {
      if jobs[k].i < |jobs[k].pod.specs| then node.Cid(jobs[k].pod, jobs[k].i) else ""
    }

    predicate Started(k: nat) {
      k < |jobs| && Cid(k) != ""
    }

    ghost predicate Apart(k: nat, l: nat)
      requires k < |jobs| && l < |jobs|
    {
      forall p | p in node.tree.dirs :: !(Mentions(p, Cid(k)) && Mentions(p, Cid(l)))
    }

    ghost function Top(k: nat): Path
      requires node.Valid() && Started(k) && node.tree.Owns(Cid(k))
    {
      node.tree.dirs[node.tree.LastTop(Cid(k), |node.tree.dirs|).value]
    }

    ghost predicate OwnsDirectory(k: nat)
      requires node.Valid()
    {
      Started(k) ==> '/' !in Cid(k) && node.tree.Owns(Cid(k))
    }

    ghost predicate Distinct(k: nat, l: nat)
      requires node.Valid() && OwnsDirectory(k) && OwnsDirectory(l)
    {
      Started(k) && Started(l) && k != l ==>
        Apart(k, l) && (jobs[k].pod == jobs[l].pod || Parent(Top(k)) != Parent(Top(l)))
    }

    /** Every started container has one directory with a single branch below it; no
        directory belongs to two containers, and no two pods share a directory. */
    ghost predicate Valid() {
      && node.Valid()
      && (forall k {:trigger OwnsDirectory(k)} :: OwnsDirectory(k))
      && (forall k, l {:trigger Distinct(k, l)} :: Distinct(k, l))
    }

    /** The leaf of a container. */
    ghost function Leaf(k: nat): Path
      requires Valid() && Started(k)
    {
      assert OwnsDirectory(k);
      node.tree.TargetIsTheLeaf(Cid(k), []);
      node.tree.Target(Cid(k)).value
    }

    /** A CPU set that the setter may want for the container. */
    ghost predicate MayHold(k: nat, cpus: CPUSet)
      requires k < |jobs|
    {
      node.MayHold(jobs[k].pod, jobs[k].i, cpus)
    }

    lemma LeafMentions(k: nat)
      requires Valid() && Started(k)
      ensures Leaf(k) in node.tree.dirs && Mentions(Leaf(k), Cid(k))
    {
      assert OwnsDirectory(k);
      node.tree.TargetIsTheLeaf(Cid(k), []);
      node.tree.TargetMentions(Cid(k));
    }

    lemma LeavesDiffer(k: nat, l: nat)
      requires Valid() && Started(k) && Started(l) && k != l
      ensures Leaf(k) != Leaf(l)
    {
      LeafMentions(k);
      LeafMentions(l);
      assert Distinct(k, l);
    }

    /** The worker and the reconciliation mean the same leaf, in whatever order the leaves
        are listed. */
    lemma InspectedIsLeaf(leaves: seq<Path>, k: nat)
      requires Valid() && Started(k) && node.tree.IsLeafList(leaves)
      ensures node.Inspected(leaves, jobs[k].pod, jobs[k].i) == Some(Leaf(k))
    {
      assert OwnsDirectory(k);
      node.tree.TargetIsTheLeaf(Cid(k), Leaf(k));
      assert Leaf(k) in leaves;
      var leaf := node.FirstMatch(leaves, Cid(k), 0);
      assert leaf.Some?;
      node.tree.TargetIsTheLeaf(Cid(k), leaf.value);
    }

    // ---- The infra container ----

    /** The infra container found beside a container is nobody's leaf: writing it touches
        no listed container. */
    lemma InfraApart(k: nat, l: nat, infra: Path)
      requires Valid() && Started(k) && Started(l)
      requires OwnsDirectory(k)
      requires Some(infra) == node.InfraDirectory(jobs[k].pod.statuses, node.tree.LastTop(Cid(k), |node.tree.dirs|).value,
                                                  |node.tree.dirs|)
      ensures infra != Leaf(l)
    {
      var at := node.tree.LastTop(Cid(k), |node.tree.dirs|).value;
      var j := InfraIndex(jobs[k].pod.statuses, at, |node.tree.dirs|);
      assert OwnsDirectory(l);
      MentionedByName(infra, Cid(l));
      ParentUnmentioned(k, l, at);
      BesideIsNobodys(k, l, at, j);
      LeafMentions(l);
    }

    lemma {:induction false} InfraIndex(statuses: seq<Status>, at: nat, m: nat) returns (j: nat)
      requires at < |node.tree.dirs| && m <= |node.tree.dirs| && node.InfraDirectory(statuses, at, m).Some?
      ensures j < m && node.tree.dirs[j] == node.InfraDirectory(statuses, at, m).value
      ensures node.BesideWithoutID(statuses, at, j)
    {
      if node.BesideWithoutID(statuses, at, m - 1) {
        j := m - 1;
      } else {
        j := InfraIndex(statuses, at, m - 1);
      }
    }

    /** No container's ID occurs above the directory of a container. */
    lemma ParentUnmentioned(k: nat, l: nat, at: nat)
      requires Valid() && Started(k) && Started(l) && OwnsDirectory(k)
      requires node.tree.LastTop(Cid(k), |node.tree.dirs|) == Some(at) && at > 0
      ensures !Mentions(Parent(node.tree.dirs[at]), Cid(l))
    {
      var top := node.tree.dirs[at];
      assert node.tree.IsTop(Cid(k), at) && Mentions(top, Cid(k));
      Inherited(Parent(top), top, Cid(l));
      assert Distinct(k, l);
      assert k != l ==> !Mentions(top, Cid(l));
    }

    /** A directory whose name holds the ID of a container, and not the path above it. */
    lemma NamedAfter(l: nat, j: nat)
      requires Valid() && Started(l) && OwnsDirectory(l) && 0 < j < |node.tree.dirs| && node.tree.dirs[j] != []
      requires Contains(Name(node.tree.dirs[j]), Cid(l)) && !Mentions(Parent(node.tree.dirs[j]), Cid(l))
      ensures Top(l) == node.tree.dirs[j]
    {
      MentionedByName(node.tree.dirs[j], Cid(l));
      assert node.tree.IsTop(Cid(l), j);
    }

    lemma BesideIsNobodys(k: nat, l: nat, at: nat, j: nat)
      requires Valid() && Started(k) && Started(l) && OwnsDirectory(k) && OwnsDirectory(l)
      requires node.tree.LastTop(Cid(k), |node.tree.dirs|) == Some(at) && at > 0
      requires j < |node.tree.dirs| && node.BesideWithoutID(jobs[k].pod.statuses, at, j)
      ensures !Contains(Name(node.tree.dirs[j]), Cid(l)) || Mentions(Parent(node.tree.dirs[j]), Cid(l))
    {
      CidFromStatus(jobs[l].pod.statuses, jobs[l].pod.specs[jobs[l].i].name);
      assert Distinct(k, l);
      if jobs[k].pod != jobs[l].pod {
        assert Parent(Top(k)) != Parent(Top(l));
        if Contains(Name(node.tree.dirs[j]), Cid(l)) && !Mentions(Parent(node.tree.dirs[j]), Cid(l)) {
          NamedAfter(l, j);
        }
      }
    }

    // ---- An uninterrupted pass of the reconciliation ----

    /** The pass over the first m containers, with these decisions. */
    ghost function After(state: map<Path, CPUSet>, leaves: seq<Path>, decisions: seq<Decision>, failing: set<nat>, m: nat):
        map<Path, CPUSet>
      requires m <= |jobs| == |decisions|
    {
      node.Pass(state, leaves, jobs[..m], decisions[..m], failing)
    }

    ghost predicate IsFull(state: map<Path, CPUSet>, k: nat)
      requires Valid() && Started(k)
    {
      Leaf(k) in state && state[Leaf(k)] == node.Full()
    }

    ghost predicate IsFixed(state: map<Path, CPUSet>, decision: Decision, k: nat)
      requires Valid() && Started(k)
    {
      IsFull(state, k) && decision.Decided?
    }

    /** One container more. */
    lemma PassStep(state: map<Path, CPUSet>, leaves: seq<Path>, decisions: seq<Decision>, failing: set<nat>, m: nat)
      requires Valid() && node.tree.IsLeafList(leaves) && m < |jobs| == |decisions|
      ensures var before := After(state, leaves, decisions, failing, m);
        After(state, leaves, decisions, failing, m + 1)
        == if Started(m) && IsFixed(before, decisions[m], m) && m !in failing
           then before[Leaf(m) := decisions[m].cgroup] else before
    {
      assert jobs[..m + 1][..m] == jobs[..m] && decisions[..m + 1][..m] == decisions[..m];
      if Started(m) {
        InspectedIsLeaf(leaves, m);
      }
    }

    /** A pass leaves everything but the leaves of its containers alone. */
    lemma {:induction false} PassMisses(state: map<Path, CPUSet>, leaves: seq<Path>, decisions: seq<Decision>, failing: set<nat>,
                                        m: nat, p: Path)
      requires Valid() && node.tree.IsLeafList(leaves) && m <= |jobs| == |decisions|
      requires forall k | 0 <= k < m && Started(k) :: Leaf(k) != p
      ensures p in After(state, leaves, decisions, failing, m) <==> p in state
      ensures p in state ==> After(state, leaves, decisions, failing, m)[p] == state[p]
    {
      if m > 0 {
        PassMisses(state, leaves, decisions, failing, m - 1, p);
        PassStep(state, leaves, decisions, failing, m - 1);
      }
    }

    lemma FixedInTurn(state: map<Path, CPUSet>, leaves: seq<Path>, decisions: seq<Decision>, failing: set<nat>, k: nat)
      requires Valid() && node.tree.IsLeafList(leaves) && k < |jobs| == |decisions| && Started(k) && Leaf(k) in state
      ensures var after := After(state, leaves, decisions, failing, k + 1);
        && Leaf(k) in after
        && after[Leaf(k)] == if IsFixed(state, decisions[k], k) && k !in failing then decisions[k].cgroup else state[Leaf(k)]
    {
      forall l | 0 <= l < k && Started(l) ensures Leaf(l) != Leaf(k) {
        LeavesDiffer(k, l);
      }
      PassMisses(state, leaves, decisions, failing, k, Leaf(k));
      PassStep(state, leaves, decisions, failing, k);
    }

    /** A pass replaces a full set in a container's leaf by what it decides on, when it comes
        to a decision and the write works; otherwise the leaf keeps its set, whatever happens
        to other containers. */
    lemma {:induction false} PassFixes(state: map<Path, CPUSet>, leaves: seq<Path>, decisions: seq<Decision>, failing: set<nat>,
                                       m: nat, k: nat)
      requires Valid() && node.tree.IsLeafList(leaves) && k < m <= |jobs| == |decisions| && Started(k) && Leaf(k) in state
      ensures var after := After(state, leaves, decisions, failing, m);
        && Leaf(k) in after
        && after[Leaf(k)] == if IsFixed(state, decisions[k], k) && k !in failing then decisions[k].cgroup else state[Leaf(k)]
    {
      if k == m - 1 {
        FixedInTurn(state, leaves, decisions, failing, k);
      } else {
        PassFixes(state, leaves, decisions, failing, m - 1, k);
        PassStep(state, leaves, decisions, failing, m - 1);
        if Started(m - 1) {
          LeavesDiffer(k, m - 1);
        }
      }
    }

    lemma {:induction false} KeysStay(state: map<Path, CPUSet>, leaves: seq<Path>, decisions: seq<Decision>, failing: set<nat>, m: nat)
      requires Valid() && node.tree.IsLeafList(leaves) && m <= |jobs| == |decisions|
      ensures After(state, leaves, decisions, failing, m).Keys == state.Keys
    {
      if m > 0 {
        KeysStay(state, leaves, decisions, failing, m - 1);
        PassStep(state, leaves, decisions, failing, m - 1);
      }
    }

    // ---- A second pass ----

    /** A decision that leaves a full set as it is. */
    predicate LeavesFull(decision: Decision) {
      decision.Undecidable? || decision.cgroup == node.Full()
    }

    ghost predicate MayDecide(k: nat, decision: Decision)
      requires k < |jobs|
    {
      node.MayDecide(jobs[k].pod, jobs[k].i, decision)
    }

    /** Either all possible decisions for the container leave a full set, or none does. */
    ghost predicate IsUnanimous(k: nat)
      requires k < |jobs|
    {
      forall d, e | MayDecide(k, d) && MayDecide(k, e) :: LeavesFull(d) == LeavesFull(e)
    }

    ghost function WholePass(state: map<Path, CPUSet>, leaves: seq<Path>, decisions: seq<Decision>, failing: set<nat>):
        map<Path, CPUSet>
      requires |jobs| == |decisions|
    {
      node.Pass(state, leaves, jobs, decisions, failing)
    }

    lemma WholeIsAfter(state: map<Path, CPUSet>, leaves: seq<Path>, decisions: seq<Decision>, failing: set<nat>)
      requires |jobs| == |decisions|
      ensures WholePass(state, leaves, decisions, failing) == After(state, leaves, decisions, failing, |jobs|)
    {
      assert jobs[..|jobs|] == jobs && decisions[..|jobs|] == decisions;
    }

    lemma LeafIdle(state: map<Path, CPUSet>, leaves: seq<Path>, again: seq<Path>,
                   decisions: seq<Decision>, others: seq<Decision>, failing: set<nat>, k: nat)
      requires Valid() && node.tree.IsLeafList(leaves) && node.tree.IsLeafList(again)
      requires |jobs| == |decisions| == |others| && k < |jobs| && Started(k) && Leaf(k) in state
      requires LeavesFull(decisions[k]) == LeavesFull(others[k])
      ensures var first := After(state, leaves, decisions, {}, |jobs|);
        && Leaf(k) in first && Leaf(k) in After(first, again, others, failing, |jobs|)
        && After(first, again, others, failing, |jobs|)[Leaf(k)] == first[Leaf(k)]
    {
      PassFixes(state, leaves, decisions, {}, |jobs|, k);
      PassFixes(After(state, leaves, decisions, {}, |jobs|), again, others, failing, |jobs|, k);
    }

    lemma SameForFull(k: nat, decisions: seq<Decision>, others: seq<Decision>)
      requires node.MayDecideAll(jobs, decisions) && node.MayDecideAll(jobs, others) && Started(k) && IsUnanimous(k)
      ensures LeavesFull(decisions[k]) == LeavesFull(others[k])
    {
      assert MayDecide(k, decisions[k]) && MayDecide(k, others[k]);
    }

    /** A pass directly after a pass without failing writes changes nothing, even if the
        leaves are listed in another order and everything is decided anew. */
    lemma SecondPassIdle(state: map<Path, CPUSet>, leaves: seq<Path>, again: seq<Path>,
                         decisions: seq<Decision>, others: seq<Decision>, failing: set<nat>)
      requires Valid() && node.tree.IsLeafList(leaves) && node.tree.IsLeafList(again)
      requires node.MayDecideAll(jobs, decisions) && node.MayDecideAll(jobs, others)
      requires forall k | 0 <= k < |jobs| && Started(k) :: IsUnanimous(k)
      ensures var first := WholePass(state, leaves, decisions, {}); WholePass(first, again, others, failing) == first
    {
      var first := WholePass(state, leaves, decisions, {});
      WholeIsAfter(state, leaves, decisions, {});
      WholeIsAfter(first, again, others, failing);
      KeysStay(state, leaves, decisions, {}, |jobs|);
      KeysStay(first, again, others, failing, |jobs|);
      forall p | p in first ensures WholePass(first, again, others, failing)[p] == first[p] {
        if k :| 0 <= k < |jobs| && Started(k) && Leaf(k) == p {
          SameForFull(k, decisions, others);
          LeafIdle(state, leaves, again, decisions, others, failing, k);
        } else {
          PassMisses(first, again, others, failing, |jobs|, p);
        }
      }
    }

    ghost predicate IsIdle(state: map<Path, CPUSet>, leaves: seq<Path>, again: seq<Path>,
                           decisions: seq<Decision>, others: seq<Decision>, failing: set<nat>)
      requires |jobs| == |decisions| == |others|
    {
      var first := WholePass(state, leaves, decisions, {});
      WholePass(first, again, others, failing) == first
    }

    /** The second pass is idle in every case exactly when, for every started container, a
        full set is left by all decisions or by none. */
    lemma SecondPassIdleExactly(leaves: seq<Path>, again: seq<Path>)
      requires Valid() && node.tree.IsLeafList(leaves) && node.tree.IsLeafList(again)
      requires forall k {:trigger jobs[k]} | 0 <= k < |jobs| :: node.Handles(jobs[k].pod)
      ensures (forall state, decisions, others, failing {:trigger IsIdle(state, leaves, again, decisions, others, failing)} |
                 node.MayDecideAll(jobs, decisions) && node.MayDecideAll(jobs, others) ::
                 IsIdle(state, leaves, again, decisions, others, failing))
         <==> forall k | 0 <= k < |jobs| && Started(k) :: IsUnanimous(k)
    {
      if forall k | 0 <= k < |jobs| && Started(k) :: IsUnanimous(k) {
        forall state, decisions, others, failing | node.MayDecideAll(jobs, decisions) && node.MayDecideAll(jobs, others)
          ensures IsIdle(state, leaves, again, decisions, others, failing)
        {
          SecondPassIdle(state, leaves, again, decisions, others, failing);
        }
      } else {
        var k :| 0 <= k < |jobs| && Started(k) && !IsUnanimous(k);
        var d, e :| MayDecide(k, d) && MayDecide(k, e) && LeavesFull(d) && !LeavesFull(e);
        var any := SomeDecisions(|jobs|);
        SecondPassWrites(leaves, again, any, k, d, e);
      }
    }

    lemma SomeDecisions(m: nat) returns (decisions: seq<Decision>)
      requires m <= |jobs| && forall k {:trigger jobs[k]} | 0 <= k < |jobs| :: node.Handles(jobs[k].pod)
      ensures |decisions| == m
      ensures forall n | 0 <= n < m && jobs[n].i < |jobs[n].pod.specs| :: MayDecide(n, decisions[n])
    {
      decisions := [];
      if m > 0 {
        var front := SomeDecisions(m - 1);
        var job := jobs[m - 1];
        var decision := Undecidable;
        if job.i < |job.pod.specs| {
          assert node.ContainerOf(job.pod, job.i).Valid();
          decision := SomeDecision(node.ContainerOf(job.pod, job.i));
        }
        decisions := front + [decision];
      }
    }

    lemma NotIdle(state: map<Path, CPUSet>, leaves: seq<Path>, again: seq<Path>, decisions: seq<Decision>,
                  others: seq<Decision>, k: nat)
      requires Valid() && node.tree.IsLeafList(leaves) && node.tree.IsLeafList(again)
      requires node.MayDecideAll(jobs, decisions) && node.MayDecideAll(jobs, others) && k < |jobs| && Started(k)
      requires state == map[Leaf(k) := node.Full()] && LeavesFull(decisions[k]) && !LeavesFull(others[k])
      ensures !IsIdle(state, leaves, again, decisions, others, {})
    {
      var first := WholePass(state, leaves, decisions, {});
      WholeIsAfter(state, leaves, decisions, {});
      WholeIsAfter(first, again, others, {});
      PassFixes(state, leaves, decisions, {}, |jobs|, k);
      PassFixes(first, again, others, {}, |jobs|, k);
    }

    lemma SecondPassWrites(leaves: seq<Path>, again: seq<Path>, any: seq<Decision>, k: nat, d: Decision, e: Decision)
      requires Valid() && node.tree.IsLeafList(leaves) && node.tree.IsLeafList(again)
      requires node.MayDecideAll(jobs, any) && k < |jobs| && Started(k)
      requires MayDecide(k, d) && MayDecide(k, e) && LeavesFull(d) && !LeavesFull(e)
      ensures exists state, decisions, others, failing {:trigger IsIdle(state, leaves, again, decisions, others, failing)} ::
        && node.MayDecideAll(jobs, decisions) && node.MayDecideAll(jobs, others)
        && !IsIdle(state, leaves, again, decisions, others, failing)
    {
      var decisions, others := any[k := d], any[k := e];
      assert node.MayDecideAll(jobs, decisions) && node.MayDecideAll(jobs, others);
      NotIdle(map[Leaf(k) := node.Full()], leaves, again, decisions, others, k);
    }

    // ---- A successful worker ----

    /** All containers of the pod are among the containers of the node. */
    ghost predicate Lists(pod: Pod) {
      forall i: nat {:trigger IsListed(pod, i)} | i < |pod.specs| :: IsListed(pod, i)
    }

    ghost predicate IsListed(pod: Pod, i: nat) {
      exists k :: 0 <= k < |jobs| && jobs[k] == Job(pod, i)
    }

    lemma WriteIsLeaf(k: nat, cpus: CPUSet)
      requires Valid() && Started(k)
      ensures node.WriteOf(jobs[k].pod, jobs[k].i, cpus) == if cpus == {} then map[] else map[Leaf(k) := cpus]
    {
      assert OwnsDirectory(k);
      node.tree.TargetIsTheLeaf(Cid(k), []);
    }

    lemma OthersMiss(a: Attempt, k: nat, l: nat)
      requires Valid() && Started(k) && l < |jobs| && l != k && a.node == node && a.pod == jobs[l].pod
      requires jobs[l].i < |jobs[l].pod.specs|
      ensures Leaf(k) !in a.Write(jobs[l].i)
    {
      if Started(l) && a.Decision(jobs[l].i).Decided? {
        WriteIsLeaf(l, a.Decision(jobs[l].i).cgroup);
        LeavesDiffer(k, l);
      }
    }

    /** What the worker writes for one container is not written over for another one. */
    lemma {:induction false} WrittenToLeaf(a: Attempt, k: nat, m: nat)
      requires Valid() && Started(k) && a.node == node && Lists(a.pod) && jobs[k].pod == a.pod && jobs[k].i < m <= |a.pod.specs|
      requires a.Gathered(jobs[k].i) && Leaf(k) in a.Write(jobs[k].i)
      ensures Leaf(k) in a.Writes(m) && a.Writes(m)[Leaf(k)] == a.Write(jobs[k].i)[Leaf(k)]
    {
      if jobs[k].i < m - 1 {
        WrittenToLeaf(a, k, m - 1);
        var l := JobOf(a.pod, m - 1);
        OthersMiss(a, k, l);
      }
    }

    lemma JobOf(pod: Pod, i: nat) returns (k: nat)
      requires Lists(pod) && i < |pod.specs|
      ensures k < |jobs| && jobs[k] == Job(pod, i)
    {
      assert IsListed(pod, i);
      k :| 0 <= k < |jobs| && jobs[k] == Job(pod, i);
    }

    lemma {:induction false} SearchedFrom(a: Attempt, m: nat) returns (k: nat)
      requires Valid() && a.node == node && Lists(a.pod) && m <= |a.pod.specs| && a.OutcomeAfter(m) == Done
      requires a.SearchDirectory(m).Some?
      ensures Started(k) && jobs[k].pod == a.pod
      ensures a.SearchDirectory(m) == node.tree.LastTop(Cid(k), |node.tree.dirs|)
    {
      if a.Gathered(m - 1) {
        assert a.ContainerOutcome(m - 1) == Done;
        k := JobOf(a.pod, m - 1);
      } else {
        k := SearchedFrom(a, m - 1);
      }
    }

    ghost predicate IsNobodys(p: Path)
      requires Valid()
    {
      forall l | Started(l) :: p != Leaf(l)
    }

    /** The infra container gets the selected default CPUs, if there are any, and its
        directory is nobody's leaf. */
    lemma InfraMeaning(a: Attempt)
      requires Valid() && a.node == node && Lists(a.pod) && a.Expected() == Done
      ensures a.defaultCPUs == {} ==> a.InfraWrite() == map[]
      ensures a.defaultCPUs != {} ==>
        exists infra {:trigger IsNobodys(infra)} :: IsNobodys(infra) && a.InfraWrite() == map[infra := a.defaultCPUs]
    {
      if a.defaultCPUs != {} {
        var k := SearchedFrom(a, |a.pod.specs|);
        var at := a.SearchDirectory(|a.pod.specs|).value;
        var infra := node.InfraDirectory(a.pod.statuses, at, |node.tree.dirs|).value;
        assert OwnsDirectory(k);
        forall l | Started(l) ensures infra != Leaf(l) {
          InfraApart(k, l, infra);
        }
        assert IsNobodys(infra);
      }
    }

    lemma InfraMisses(a: Attempt, k: nat)
      requires Valid() && a.node == node && Lists(a.pod) && a.Expected() == Done && Started(k)
      ensures Leaf(k) !in a.InfraWrite()
    {
      InfraMeaning(a);
    }

    /** When an attempt succeeds, every gathered container has in its leaf what the attempt
        decided on for it, unless that set is empty. */
    lemma SuccessMeaning(a: Attempt, k: nat, before: map<Path, CPUSet>)
      requires Valid() && k < |jobs| && jobs[k].i < |jobs[k].pod.specs| && a.node == node && a.pod == jobs[k].pod && Lists(a.pod)
      requires a.Gathered(jobs[k].i) && a.Expected() == Done
      ensures Started(k) && a.Decision(jobs[k].i).Decided?
      ensures var after, cpus := before + a.AllWrites(), a.Decision(jobs[k].i).cgroup;
        cpus != {} ==> Leaf(k) in after && after[Leaf(k)] == cpus
    {
      a.AllDone(jobs[k].i, |a.pod.specs|);
      var cpus := a.Decision(jobs[k].i).cgroup;
      if cpus != {} {
        WriteIsLeaf(k, cpus);
        WrittenToLeaf(a, k, |a.pod.specs|);
        InfraMisses(a, k);
      }
    }

    /** With a non-empty default pool, the infra directory found beside one of the pod's
        containers then holds the selected default set, and it is nobody's leaf. */
    lemma InfraSuccess(a: Attempt, before: map<Path, CPUSet>) returns (k: nat, infra: Path)
      requires Valid() && a.node == node && Lists(a.pod) && a.Expected() == Done && a.defaultCPUs != {}
      ensures Started(k) && jobs[k].pod == a.pod && OwnsDirectory(k)
      ensures Some(infra) == node.InfraDirectory(a.pod.statuses, node.tree.LastTop(Cid(k), |node.tree.dirs|).value,
                                                 |node.tree.dirs|)
      ensures infra in node.tree.dirs && infra != [] && Parent(infra) == Parent(Top(k)) && !IDInStatus(a.pod.statuses, Name(infra))
      ensures IsNobodys(infra)
      ensures var after := before + a.AllWrites(); infra in after && after[infra] == a.defaultCPUs
    {
      k := SearchedFrom(a, |a.pod.specs|);
      assert OwnsDirectory(k);
      var at := node.tree.LastTop(Cid(k), |node.tree.dirs|).value;
      infra := node.InfraDirectory(a.pod.statuses, at, |node.tree.dirs|).value;
      var j := InfraIndex(a.pod.statuses, at, |node.tree.dirs|);
      InfraMeaning(a);
      assert a.InfraWrite() == map[infra := a.defaultCPUs];
      assert infra in before + a.AllWrites();
    }

    // ---- Interleaved steps ----

    /** What the worker writes when it looks for the infra container beside a container. */
    ghost function InfraWriteOf(k: nat, cpus: CPUSet): map<Path, CPUSet>
      requires Valid() && Started(k)
    {
      var top := node.tree.LastTop(Cid(k), |node.tree.dirs|);
      if top.None? || cpus == {} then map[] else
        match node.InfraDirectory(jobs[k].pod.statuses, top.value, |node.tree.dirs|)
        case None => map[]
        case Some(infra) => map[infra := cpus]
    }

    ghost predicate Enabled(state: State, e: Event)
      requires Valid()
    {
      && Started(e.k)
      && match e
         case WorkerWrite(k, cpus) => MayHold(k, cpus)
         case InfraWrite(_, cpus) => node.setter.MayBeDefault(cpus)
         case Overwrite(k, cpus) => k in state.pending && MayHold(k, cpus)
         case _ => true
    }

    ghost function Step(state: State, e: Event): State
      requires Valid() && Enabled(state, e)
    {
      match e
      case WorkerWrite(k, cpus) => state.(cpusets := state.cpusets + node.WriteOf(jobs[k].pod, jobs[k].i, cpus))
      case InfraWrite(k, cpus) => state.(cpusets := state.cpusets + InfraWriteOf(k, cpus))
      case Inspect(k) =>
        state.(pending := if IsFull(state.cpusets, k) then state.pending + {k} else state.pending - {k})
      case Overwrite(k, cpus) => State(state.cpusets[Leaf(k) := cpus], state.pending - {k})
      case Restart(k) => state.(cpusets := state.cpusets[Leaf(k) := node.Full()])
    }

    ghost predicate IsRun(start: State, run: seq<Event>)
      requires Valid()
      decreases |run|, 0
    {
      run == [] || (IsRun(start, run[..|run| - 1]) && Enabled(Reached(start, run[..|run| - 1]), run[|run| - 1]))
    }

    ghost function Reached(start: State, run: seq<Event>): State
      requires Valid() && IsRun(start, run)
      decreases |run|, 1
    {
      if run == [] then start else Step(Reached(start, run[..|run| - 1]), run[|run| - 1])
    }

    /** What an attempt writes for a container is a step of a run. */
    lemma WriteIsStep(a: Attempt, i: nat, k: nat, state: State)
      requires Valid() && a.IsFor(node, a.pod, a.names) && i < |a.pod.specs| && a.Decision(i).Decided?
      requires k < |jobs| && jobs[k] == Job(a.pod, i) && Started(k)
      ensures Enabled(state, WorkerWrite(k, a.Decision(i).cgroup))
      ensures Step(state, WorkerWrite(k, a.Decision(i).cgroup)).cpusets == state.cpusets + a.Write(i)
    {
      assert node.MayDecide(a.pod, i, a.decisions[i]);
      assert Decided(a.Decision(i).config, a.Decision(i).cgroup) == a.decisions[i];
    }

    /** And what it writes into the infra container, beside the last gathered one. */
    lemma InfraIsStep(a: Attempt, i: nat, k: nat, state: State)
      requires Valid() && a.IsFor(node, a.pod, a.names) && i < |a.pod.specs| && a.Gathered(i)
      requires (forall l | i < l < |a.pod.specs| :: !a.Gathered(l)) && a.Decision(i).Decided? && a.Decision(i).cgroup != {}
      requires k < |jobs| && jobs[k] == Job(a.pod, i) && Started(k)
      ensures Enabled(state, InfraWrite(k, a.defaultCPUs))
      ensures Step(state, InfraWrite(k, a.defaultCPUs)).cpusets == state.cpusets + a.InfraWrite()
    {
      a.SearchExactly(i, |a.pod.specs|);
    }

    lemma InfraWriteMisses(k: nat, l: nat, cpus: CPUSet)
      requires Valid() && Started(k) && Started(l)
      ensures Leaf(l) !in InfraWriteOf(k, cpus)
    {
      assert OwnsDirectory(k);
      if InfraWriteOf(k, cpus) != map[] {
        var top := node.tree.LastTop(Cid(k), |node.tree.dirs|).value;
        var infra := node.InfraDirectory(jobs[k].pod.statuses, top, |node.tree.dirs|).value;
        InfraApart(k, l, infra);
      }
    }

    /** One step leaves the leaf of a container alone, makes it full on a restart of this
        very container, or writes a set that the setter may want for it. */
    lemma StepOnLeaf(state: State, e: Event, k: nat)
      requires Valid() && Enabled(state, e) && Started(k) && Leaf(k) in state.cpusets
      ensures var after := Step(state, e).cpusets;
        && Leaf(k) in after
        && (|| after[Leaf(k)] == state.cpusets[Leaf(k)]
            || (e == Restart(k) && after[Leaf(k)] == node.Full())
            || MayHold(k, after[Leaf(k)]))
    {
      if e.k != k {
        LeavesDiffer(k, e.k);
      }
      match e
      case WorkerWrite(_, cpus) => WriteIsLeaf(e.k, cpus);
      case InfraWrite(_, cpus) => InfraWriteMisses(e.k, k, cpus);
      case _ =>
    }

    /** In every reachable state, however the steps interleave and whatever each of them
        decides, a leaf holds its first value, the full set or a set that the setter may want
        for it. */
    lemma {:induction false} LeafValues(start: State, run: seq<Event>, k: nat)
      requires Valid() && IsRun(start, run) && Started(k) && Leaf(k) in start.cpusets
      ensures var cpusets := Reached(start, run).cpusets;
        && Leaf(k) in cpusets
        && (|| cpusets[Leaf(k)] == start.cpusets[Leaf(k)]
            || cpusets[Leaf(k)] == node.Full()
            || MayHold(k, cpusets[Leaf(k)]))
    {
      if run != [] {
        LeafValues(start, run[..|run| - 1], k);
        StepOnLeaf(Reached(start, run[..|run| - 1]), run[|run| - 1], k);
      }
    }

    ghost predicate HoldsAllowed(state: State, k: nat)
      requires Valid() && Started(k)
    {
      Leaf(k) in state.cpusets && MayHold(k, state.cpusets[Leaf(k)])
    }

    /** A leaf that holds a set the setter may want for it holds such a set until its
        container restarts, even when a write of the reconciliation comes late. */
    lemma {:induction false} AllowedStays(start: State, run: seq<Event>, k: nat)
      requires Valid() && IsRun(start, run) && Started(k) && HoldsAllowed(start, k) && Restart(k) !in run
      ensures HoldsAllowed(Reached(start, run), k)
    {
      if run != [] {
        AllowedStays(start, run[..|run| - 1], k);
        StepOnLeaf(Reached(start, run[..|run| - 1]), run[|run| - 1], k);
      }
    }

    /** What the setter looks at for a started container. */
    function Spec(k: nat): CorrectCpuset.Container
      requires Started(k)
    {
      node.ContainerOf(jobs[k].pod, jobs[k].i)
    }

    ghost predicate Keeps(start: State, run: seq<Event>, k: nat)
      requires Valid() && IsRun(start, run) && Started(k) && Leaf(k) in start.cpusets
    {
      Leaf(k) in Reached(start, run).cpusets && Reached(start, run).cpusets[Leaf(k)] == start.cpusets[Leaf(k)]
    }

    ghost predicate KeepsAlways(k: nat)
      requires Valid() && Started(k)
    {
      forall start, run | IsRun(start, run) && HoldsAllowed(start, k) && Restart(k) !in run :: Keeps(start, run, k)
    }

    /** It keeps that very set in every run without such a restart exactly when the setter
        may want only one set: when the resources that end its loop lead to one set or, without
        any, all sums of shared and exclusive CPUs do. */
    lemma StaysExactly(k: nat)
      requires Valid() && Started(k) && Spec(k).Valid()
      ensures KeepsAlways(k) <==> SetsAgree(Spec(k))
    {
      OneSetExactly(Spec(k));
      if HasOneSet(Spec(k)) {
        forall start, run | IsRun(start, run) && HoldsAllowed(start, k) && Restart(k) !in run ensures Keeps(start, run, k) {
          AllowedStays(start, run, k);
          SameSet(k, start.cpusets[Leaf(k)], Reached(start, run).cpusets[Leaf(k)]);
        }
      } else {
        var c, d := TwoSets(k);
        if d == {} {
          Replaced(k, d, c);
        } else {
          Replaced(k, c, d);
        }
      }
    }

    lemma SameSet(k: nat, c: CPUSet, d: CPUSet)
      requires Started(k) && HasOneSet(Spec(k)) && MayHold(k, c) && MayHold(k, d)
      ensures c == d
    {
    }

    lemma TwoSets(k: nat) returns (c: CPUSet, d: CPUSet)
      requires Started(k) && !HasOneSet(Spec(k))
      ensures MayHold(k, c) && MayHold(k, d) && c != d
    {
      c, d :| Spec(k).MayHold(c) && Spec(k).MayHold(d) && c != d;
    }

    /** A run in which the worker replaces one wanted set by another one. */
    lemma Replaced(k: nat, c: CPUSet, d: CPUSet)
      requires Valid() && Started(k) && MayHold(k, c) && MayHold(k, d) && c != d && d != {}
      ensures !KeepsAlways(k)
    {
      var start, e := State(map[Leaf(k) := c], {}), WorkerWrite(k, d);
      assert [e][..0] == [];
      assert IsRun(start, []) && Reached(start, []) == start;
      assert Enabled(start, e) && IsRun(start, [e]);
      WriteIsLeaf(k, d);
      assert !Keeps(start, [e], k);
    }

    /** What an uninterrupted reconciliation does to a container is the step that inspects
        the leaf, followed by the step that overwrites it if it was full and the setter came
        to a decision. */
    lemma ReconciledInTwoSteps(state: State, leaves: seq<Path>, k: nat, decision: Decision)
      requires Valid() && Started(k) && node.tree.IsLeafList(leaves) && MayDecide(k, decision)
      ensures var inspected := Step(state, Inspect(k));
        var reconciled := node.Reconciled(state.cpusets, leaves, jobs[k].pod, jobs[k].i, decision, false);
        if k in inspected.pending && decision.Decided?
        then Enabled(inspected, Overwrite(k, decision.cgroup)) && Step(inspected, Overwrite(k, decision.cgroup)).cpusets == reconciled
        else inspected.cpusets == reconciled
    {
      InspectedIsLeaf(leaves, k);
      if decision.Decided? {
        assert Decided(decision.config, decision.cgroup) == decision;
      }
    }
  }
}
