/** The process starter: what it waits for inside the container, which CPUs it pins the
    annotated processes to and which program it finally becomes. */
module ProcessStarter {
  import opened Annotation
  import opened Wrappers
  import opened CpuSets
  import opened DevicePlugin
  import opened GoText
  import opened Pools

  const POLL_LIMIT: nat := 90

  /** A CPU list variable; an absent one reads as the empty list. */
  function Variable(env: Env, name: string): CPUSet {
    if name in env then env[name] else {}
  }

  /** The CPU set the starter expects to see in its cgroup; None as long as a variable it
      needs is empty, in which case it never looks. */
  function Awaited(cpuPools: string, env: Env): Option<CPUSet> {
    var exclusive, shared := Variable(env, EXCLUSIVE_CPUS), Variable(env, SHARED_CPUS);
    var cloudphone, numa := Variable(env, CLOUDPHONE_CPUS), Variable(env, NUMA_CPUS);
    if cpuPools == CLOUDPHONE_POOL_ID then
      if cloudphone == {} || numa == {} then None else Some(numa)
    else if cpuPools == MIXED_POOLS then
      if exclusive == {} || shared == {} then None else Some(exclusive + shared)
    else if cpuPools == EXCLUSIVE_POOL_ID then
      if exclusive == {} then None else Some(exclusive)
    else if cpuPools == SHARED_POOL_ID then
      if shared == {} then None else Some(shared)
    else Some({})
  }

  datatype Cpus = Cpus(exclusive: seq<nat>, shared: seq<nat>)

  /** The lists with which a released starter goes on. */
  function Handed(cpuPools: string, env: Env): Cpus {
    Cpus(List(if cpuPools == MIXED_POOLS || cpuPools == EXCLUSIVE_POOL_ID then Variable(env, EXCLUSIVE_CPUS) else {}),
         List(if cpuPools == MIXED_POOLS || cpuPools == SHARED_POOL_ID then Variable(env, SHARED_CPUS) else {}))
  }

  ghost predicate Shows(awaited: Option<CPUSet>, cgroup: seq<CPUSet>) {
    exists i :: 0 <= i < |cgroup| && awaited == Some(cgroup[i])
  }

  /** In one of the looks the cgroup holds the awaited set. */
  ghost predicate IsReleased(cpuPools: string, env: Env, cgroup: seq<CPUSet>) {
    Shows(Awaited(cpuPools, env), cgroup)
  }

  /** For each value of CPU_POOLS: the variables without which the starter never goes on, and
      the CPU set it has to see. */
  lemma ReleasedExactly(env: Env, cgroup: seq<CPUSet>)
    ensures var exclusive, shared := Variable(env, EXCLUSIVE_CPUS), Variable(env, SHARED_CPUS);
      && (IsReleased("exclusive&shared", env, cgroup) <==> exclusive != {} && shared != {} && exclusive + shared in cgroup)
      && (IsReleased("exclusive", env, cgroup) <==> exclusive != {} && exclusive in cgroup)
      && (IsReleased("shared", env, cgroup) <==> shared != {} && shared in cgroup)
    ensures var cloudphone, numa := Variable(env, CLOUDPHONE_CPUS), Variable(env, NUMA_CPUS);
      IsReleased("cloudphone", env, cgroup) <==> cloudphone != {} && numa != {} && numa in cgroup
    ensures forall other: string | other !in {"exclusive&shared", "exclusive", "shared", "cloudphone"} ::
      IsReleased(other, env, cgroup) <==> {} in cgroup
  {
    TextsDiffer();
  }

  lemma TextsDiffer()
    ensures MIXED_POOLS != EXCLUSIVE_POOL_ID && MIXED_POOLS != SHARED_POOL_ID && MIXED_POOLS != CLOUDPHONE_POOL_ID
    ensures EXCLUSIVE_POOL_ID != SHARED_POOL_ID && EXCLUSIVE_POOL_ID != CLOUDPHONE_POOL_ID && SHARED_POOL_ID != CLOUDPHONE_POOL_ID
  {
    assert |MIXED_POOLS| == 16 && |EXCLUSIVE_POOL_ID| == 9 && |SHARED_POOL_ID| == 6 && |CLOUDPHONE_POOL_ID| == 10;
  }

  /** pollCPUSetCompletion. `cgroup` holds what the cgroup file would read in each second;
      None stands for giving up. */
  method PollCPUSetCompletion(cpuPools: string, env: Env, cgroup: seq<CPUSet>) returns (cpus: Option<Cpus>)
    requires |cgroup| == POLL_LIMIT
    ensures cpus.Some? <==> IsReleased(cpuPools, env, cgroup)
    ensures cpus.Some? ==> cpus.value == Handed(cpuPools, env)
  {
    var expected: CPUSet, exclusive: CPUSet, shared: CPUSet, cloudphone: CPUSet := {}, {}, {}, {};
    ghost var awaited := Awaited(cpuPools, env);
    for i := 0 to POLL_LIMIT
      invariant forall j | 0 <= j < i :: awaited != Some(cgroup[j])
      invariant exclusive == {} || cpuPools == MIXED_POOLS || cpuPools == EXCLUSIVE_POOL_ID
      invariant shared == {} || cpuPools == MIXED_POOLS || cpuPools == SHARED_POOL_ID
      invariant awaited == Some({}) ==> expected == {}
    {
      if cpuPools == CLOUDPHONE_POOL_ID {
        cloudphone := Variable(env, CLOUDPHONE_CPUS);
        if cloudphone == {} {
          continue;
        }
        var numa := Variable(env, NUMA_CPUS);
        if numa == {} {
          continue;
        }
        expected := numa;
      } else if cpuPools == MIXED_POOLS {
        exclusive := Variable(env, EXCLUSIVE_CPUS);
        shared := Variable(env, SHARED_CPUS);
        if exclusive == {} || shared == {} {
          continue;
        }
        expected := exclusive + shared;
      } else if cpuPools == EXCLUSIVE_POOL_ID {
        exclusive := Variable(env, EXCLUSIVE_CPUS);
        if exclusive == {} {
          continue;
        }
        expected := exclusive;
      } else if cpuPools == SHARED_POOL_ID {
        shared := Variable(env, SHARED_CPUS);
        if shared == {} {
          continue;
        }
        expected := shared;
      }
      assert awaited == Some(expected);
      if expected == cgroup[i] {
        return Some(Cpus(List(exclusive), List(shared)));
      }
    }
    return None;
  }

  // ---- Pinning the annotated processes ----

  predicate IsExclusive(p: Process) {
    HasPrefix(p.poolName, EXCLUSIVE_POOL_ID)
  }

  function Members(list: seq<nat>): CPUSet {
    set c | c in list
  }

  /** setAffinity: the mask it requests and the CPUs it leaves, or None when there are
      too few. A negative count would slice out of range. */
  method SetAffinity(nbrCPUs: int, cpuList: seq<nat>) returns (mask: CPUSet, rest: Option<seq<nat>>)
    requires nbrCPUs >= 0
    ensures rest.Some? <==> nbrCPUs <= |cpuList|
    ensures rest.Some? ==> mask == Members(cpuList[..nbrCPUs]) && rest.value == cpuList[nbrCPUs..]
  {
    mask := {};
    if |cpuList| < nbrCPUs {
      return {}, None;
    }
    for i := 0 to nbrCPUs
      invariant mask == Members(cpuList[..i])
    {
      assert forall c :: c in cpuList[..i + 1] <==> c in cpuList[..i] || c == cpuList[i];
      mask := mask + {cpuList[i]};
    }
    rest := Some(cpuList[nbrCPUs..]);
  }

  /** A program and the affinity mask requested before it starts. */
  datatype Launch = Launch(argv: seq<string>, mask: CPUSet)

  /** CPUs demanded by the exclusive ones among the first m processes. */
  function Demand(processes: seq<Process>, m: nat): int
    requires m <= |processes|
  {
    SumPrefixed(processes, m, EXCLUSIVE_POOL_ID)
  }

  predicate Countable(processes: seq<Process>) {
    forall i | 0 <= i < |processes| :: processes[i].cpus >= 0
  }

  lemma {:induction false} DemandGrows(processes: seq<Process>, i: nat, j: nat)
    requires Countable(processes) && i <= j <= |processes|
    ensures 0 <= Demand(processes, i) <= Demand(processes, j)
  {
    if i < j {
      DemandGrows(processes, i, j - 1);
    } else if 0 < i {
      DemandGrows(processes, i - 1, i - 1);
    }
  }

  /** The i-th launch: an exclusive process gets the next CPUs of the list, any other
      process all shared ones. */
  ghost predicate LaunchedAt(launch: Launch, processes: seq<Process>, i: nat, exclusive: seq<nat>, shared: seq<nat>)
    requires Countable(processes) && i < |processes|
  {
    && launch.argv == [processes[i].procName] + processes[i].args
    && if IsExclusive(processes[i])
       then
         && 0 <= Demand(processes, i) <= Demand(processes, i + 1) <= |exclusive|
         && launch.mask == Members(exclusive[Demand(processes, i)..Demand(processes, i + 1)])
       else launch.mask == Members(shared)
  }

  /** What the starter does: starts processes, the last one in its own place; stops with an
      error after some; becomes the program from its own arguments; or gives up waiting. */
  datatype Outcome =
    | Started(launches: seq<Launch>)
    | OutOfCpus(launches: seq<Launch>)
    | Becomes(argv: seq<string>)
    | GaveUp
    | Crashed

  /** All processes are started, or those before the one that finds too few CPUs. */
  ghost predicate Serves(outcome: Outcome, processes: seq<Process>, exclusive: seq<nat>, shared: seq<nat>)
    requires Countable(processes)
  {
    && (outcome.Started? || outcome.OutOfCpus?)
    && (outcome.Started? <==> Demand(processes, |processes|) <= |exclusive|)
    && (outcome.Started? ==> |outcome.launches| == |processes|)
    && |outcome.launches| <= |processes|
    && (outcome.OutOfCpus? ==>
          |outcome.launches| < |processes| && Demand(processes, |outcome.launches| + 1) > |exclusive|)
    && forall i | 0 <= i < |outcome.launches| :: LaunchedAt(outcome.launches[i], processes, i, exclusive, shared)
  }

  /** The loop over the processes of one container. The starter runs out of CPUs exactly
      when the processes demand more exclusive CPUs than the list has. */
  method StartProcesses(processes: seq<Process>, exclusiveCPUs: seq<nat>, sharedCPUs: seq<nat>) returns (outcome: Outcome)
    requires processes != [] && Countable(processes)
    ensures Serves(outcome, processes, exclusiveCPUs, sharedCPUs)
  {
    var exclCPUs := exclusiveCPUs;
    var launches: seq<Launch> := [];
    for i := 0 to |processes|
      invariant 0 <= Demand(processes, i) <= |exclusiveCPUs|
      invariant exclCPUs == exclusiveCPUs[Demand(processes, i)..]
      invariant |launches| == i
      invariant forall j | 0 <= j < i :: LaunchedAt(launches[j], processes, j, exclusiveCPUs, sharedCPUs)
    {
      var process := processes[i];
      var mask: CPUSet;
      if IsExclusive(process) {
        ghost var from := Demand(processes, i);
        var rest: Option<seq<nat>>;
        mask, rest := SetAffinity(process.cpus, exclCPUs);
        if rest == None {
          DemandGrows(processes, i + 1, |processes|);
          return OutOfCpus(launches);
        }
        assert exclusiveCPUs[from..][..process.cpus] == exclusiveCPUs[from..from + process.cpus];
        exclCPUs := rest.value;
      } else {
        var rest: Option<seq<nat>>;
        mask, rest := SetAffinity(|sharedCPUs|, sharedCPUs);
        assert sharedCPUs[..|sharedCPUs|] == sharedCPUs;
      }
      launches := launches + [Launch([process.procName] + process.args, mask)];
    }
    return Started(launches);
  }

  ghost predicate Distinct(list: seq<nat>) {
    forall i, j | 0 <= i < j < |list| :: list[i] != list[j]
  }

  /** Every process was launched as it should. */
  ghost predicate AllLaunched(launches: seq<Launch>, processes: seq<Process>, exclusive: seq<nat>, shared: seq<nat>) {
    && Countable(processes) && |launches| == |processes|
    && forall i | 0 <= i < |launches| :: LaunchedAt(launches[i], processes, i, exclusive, shared)
  }

  /** A CPU is given to some exclusive process. */
  ghost predicate Pinned(launches: seq<Launch>, processes: seq<Process>, c: nat) {
    exists i :: 0 <= i < |launches| && |launches| == |processes| && IsExclusive(processes[i]) && c in launches[i].mask
  }

  /** The masks of the exclusive processes have the demanded sizes and do not overlap. */
  lemma {:induction false} SlicesDisjoint(launches: seq<Launch>, processes: seq<Process>, exclusive: seq<nat>, shared: seq<nat>)
    requires AllLaunched(launches, processes, exclusive, shared) && Distinct(exclusive)
    ensures forall i | 0 <= i < |launches| && IsExclusive(processes[i]) :: |launches[i].mask| == processes[i].cpus
    ensures forall i, j | 0 <= i < j < |launches| && IsExclusive(processes[i]) && IsExclusive(processes[j]) ::
      launches[i].mask !! launches[j].mask
  {
    forall i | 0 <= i < |launches| && IsExclusive(processes[i]) ensures |launches[i].mask| == processes[i].cpus {
      assert LaunchedAt(launches[i], processes, i, exclusive, shared);
      DistinctCount(exclusive[Demand(processes, i)..Demand(processes, i + 1)]);
    }
    forall i, j | 0 <= i < j < |launches| && IsExclusive(processes[i]) && IsExclusive(processes[j])
      ensures launches[i].mask !! launches[j].mask
    {
      assert LaunchedAt(launches[i], processes, i, exclusive, shared);
      assert LaunchedAt(launches[j], processes, j, exclusive, shared);
      DemandGrows(processes, i + 1, j);
    }
  }

  lemma HasOwnMask(launch: Launch, processes: seq<Process>, i: nat, exclusive: seq<nat>, shared: seq<nat>)
    requires Countable(processes) && i < |processes| && LaunchedAt(launch, processes, i, exclusive, shared) && Distinct(exclusive)
    ensures !HasPrefix(processes[i].poolName, "exclusive") ==> launch.mask == Members(shared)
    ensures HasPrefix(processes[i].poolName, "exclusive") ==>
      launch.mask <= Members(exclusive) && |launch.mask| == processes[i].cpus
  {
    if IsExclusive(processes[i]) {
      DistinctCount(exclusive[Demand(processes, i)..Demand(processes, i + 1)]);
    }
  }

  lemma HandedMembers(env: Env)
    ensures Distinct(Handed(MIXED_POOLS, env).exclusive)
    ensures Members(Handed(MIXED_POOLS, env).exclusive) == Variable(env, EXCLUSIVE_CPUS)
    ensures Members(Handed(MIXED_POOLS, env).shared) == Variable(env, SHARED_CPUS)
  {
  }

  /** A starter released with both kinds of CPUs runs each process's own program with its
      arguments: exclusive ones on as many of the CPUs in EXCLUSIVE_CPUS as they ask for, the
      others on those in SHARED_CPUS. */
  lemma LaunchedAsAnnotated(outcome: Outcome, processes: seq<Process>, env: Env, i: nat)
    requires Countable(processes) && Serves(outcome, processes, Handed(MIXED_POOLS, env).exclusive, Handed(MIXED_POOLS, env).shared)
    requires i < |outcome.launches|
    ensures outcome.launches[i].argv == [processes[i].procName] + processes[i].args
    ensures !HasPrefix(processes[i].poolName, "exclusive") ==> outcome.launches[i].mask == Variable(env, SHARED_CPUS)
    ensures HasPrefix(processes[i].poolName, "exclusive") ==>
      outcome.launches[i].mask <= Variable(env, EXCLUSIVE_CPUS) && |outcome.launches[i].mask| == processes[i].cpus
  {
    var handed := Handed(MIXED_POOLS, env);
    assert LaunchedAt(outcome.launches[i], processes, i, handed.exclusive, handed.shared);
    HandedMembers(env);
    HasOwnMask(outcome.launches[i], processes, i, handed.exclusive, handed.shared);
  }

  /** Together with the CPUs left over, they make up the whole list: each CPU of the list
      is either pinned or left, never both. */
  lemma {:induction false} SlicesPartition(launches: seq<Launch>, processes: seq<Process>, exclusive: seq<nat>, shared: seq<nat>)
    requires AllLaunched(launches, processes, exclusive, shared) && Distinct(exclusive)
    requires Demand(processes, |processes|) <= |exclusive|
    ensures 0 <= Demand(processes, |processes|)
    ensures forall c {:trigger Pinned(launches, processes, c)} ::
      Pinned(launches, processes, c) <==> c in exclusive[..Demand(processes, |processes|)]
    ensures exclusive[..Demand(processes, |processes|)] + exclusive[Demand(processes, |processes|)..] == exclusive
    ensures forall c | c in exclusive[..Demand(processes, |processes|)] :: c !in exclusive[Demand(processes, |processes|)..]
  {
    var n := |processes|;
    DemandGrows(processes, 0, n);
    forall c ensures Pinned(launches, processes, c) <==> c in exclusive[..Demand(processes, n)] {
      if Pinned(launches, processes, c) {
        PinnedIsTaken(launches, processes, exclusive, shared, c);
      }
      if c in exclusive[..Demand(processes, n)] {
        var k :| 0 <= k < Demand(processes, n) && exclusive[k] == c;
        TakenIsPinned(launches, processes, exclusive, shared, k);
      }
    }
  }

  lemma {:induction false} PinnedIsTaken(launches: seq<Launch>, processes: seq<Process>, exclusive: seq<nat>, shared: seq<nat>, c: nat)
    requires AllLaunched(launches, processes, exclusive, shared) && Pinned(launches, processes, c)
    requires 0 <= Demand(processes, |processes|) <= |exclusive|
    ensures c in exclusive[..Demand(processes, |processes|)]
  {
    var i :| 0 <= i < |launches| && IsExclusive(processes[i]) && c in launches[i].mask;
    assert LaunchedAt(launches[i], processes, i, exclusive, shared);
    DemandGrows(processes, i + 1, |processes|);
  }

  lemma {:induction false} TakenIsPinned(launches: seq<Launch>, processes: seq<Process>, exclusive: seq<nat>, shared: seq<nat>, k: nat)
    requires AllLaunched(launches, processes, exclusive, shared)
    requires k < Demand(processes, |processes|) <= |exclusive|
    ensures Pinned(launches, processes, exclusive[k])
  {
    var i := SliceOf(processes, |processes|, k);
    assert LaunchedAt(launches[i], processes, i, exclusive, shared);
    assert exclusive[Demand(processes, i)..Demand(processes, i + 1)][k - Demand(processes, i)] == exclusive[k];
  }

  lemma {:induction false} SliceOf(processes: seq<Process>, n: nat, k: nat) returns (i: nat)
    requires Countable(processes) && n <= |processes| && k < Demand(processes, n)
    ensures i < n && IsExclusive(processes[i]) && Demand(processes, i) <= k < Demand(processes, i + 1)
  {
    if k < Demand(processes, n - 1) {
      i := SliceOf(processes, n - 1, k);
    } else {
      i := n - 1;
    }
  }

  lemma {:induction false} DistinctCount(list: seq<nat>)
    requires Distinct(list)
    ensures |Members(list)| == |list|
  {
    if list == [] {
      assert Members(list) == {};
    } else {
      var front, last := list[..|list| - 1], list[|list| - 1];
      DistinctCount(front);
      assert list == front + [last];
      assert Members(list) == Members(front) + {last};
    }
  }

  // ---- The whole program ----

  /** The first annotated container with the starter's own name, if any. */
  ghost function FirstNamed(containers: seq<AnnotatedContainer>, name: string): Option<AnnotatedContainer> {
    if containers == [] then None
    else if containers[0].name == name && containers[0].processes != [] then Some(containers[0])
    else FirstNamed(containers[1..], name)
  }

  /** What main does after the poll: the first container entry of the own name with
      processes decides; without one, the arguments do. */
  ghost predicate Runs(outcome: Outcome, containers: seq<AnnotatedContainer>, name: string, cpus: Cpus, args: seq<string>) {
    match FirstNamed(containers, name)
    case None => outcome == if |args| >= 2 then Becomes(args[1..]) else Crashed
    case Some(c) => Countable(c.processes) && Serves(outcome, c.processes, cpus.exclusive, cpus.shared)
  }

  /** main after the poll, with `args` for os.Args: a successful exec does not return, so
      the first container entry with processes decides. */
  method Start(containers: seq<AnnotatedContainer>, name: string, cpus: Cpus, args: seq<string>) returns (outcome: Outcome)
    requires forall c | c in containers :: Countable(c.processes)
    ensures Runs(outcome, containers, name, cpus, args)
  {
    for i := 0 to |containers|
      invariant FirstNamed(containers, name) == FirstNamed(containers[i..], name)
    {
      var container := containers[i];
      assert container in containers;
      assert containers[i..][1..] == containers[i + 1..];
      if container.name != name {
        continue;
      }
      if container.processes != [] {
        outcome := StartProcesses(container.processes, cpus.exclusive, cpus.shared);
        return;
      }
    }
    if |args| < 2 {
      return Crashed;
    }
    return Becomes(args[1..]);
  }

  /** main, for an annotation that can be read: it waits, and goes on exactly when it is
      released in time. */
  method Run(cpuPools: string, env: Env, cgroup: seq<CPUSet>, containers: seq<AnnotatedContainer>, name: string, args: seq<string>)
    returns (outcome: Outcome)
    requires |cgroup| == POLL_LIMIT && forall c | c in containers :: Countable(c.processes)
    ensures outcome == GaveUp <==> !IsReleased(cpuPools, env, cgroup)
    ensures outcome != GaveUp ==> Runs(outcome, containers, name, Handed(cpuPools, env), args)
  {
    var cpus := PollCPUSetCompletion(cpuPools, env, cgroup);
    if cpus == None {
      return GaveUp;
    }
    outcome := Start(containers, name, cpus.value, args);
  }
}
