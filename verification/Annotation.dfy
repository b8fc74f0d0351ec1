/** The CPU annotation of a pod: the processes of each container, the CPUs they ask for
    and the pools they ask them from. */
module Annotation {
  import opened Wrappers
  import opened GoText
  import opened Pools

  datatype Process = Process(procName: string, args: seq<string>, cpus: int, poolName: string)

  datatype AnnotatedContainer = AnnotatedContainer(name: string, processes: seq<Process>)

  datatype DecodeError = NotJson | NoContainerName | NoProcesses | NoProcessName | NoCpus

  /** What is wrong with one process, if anything. */
  function ProcessFault(p: Process): Option<DecodeError> {
    if p.procName == "" then Some(NoProcessName) else if p.cpus == 0 then Some(NoCpus) else None
  }

  predicate IsFault(c: AnnotatedContainer, e: DecodeError) {
    || (e == NoContainerName && c.name == "")
    || (e == NoProcesses && c.processes == [])
    || exists i | 0 <= i < |c.processes| :: ProcessFault(c.processes[i]) == Some(e)
  }

  predicate Faultless(c: AnnotatedContainer) {
    c.name != "" && c.processes != [] && forall i | 0 <= i < |c.processes| :: ProcessFault(c.processes[i]) == None
  }

  /** Entries by container name; a later entry of a name replaces an earlier one. */
  function ByName(entries: seq<AnnotatedContainer>, m: nat): (byName: map<string, AnnotatedContainer>)
    requires m <= |entries|
    ensures forall name | name in byName :: byName[name].name == name
  {
    if m == 0 then map[] else ByName(entries, m - 1)[entries[m - 1].name := entries[m - 1]]
  }

  /** CPUs asked for by the first m processes from pools whose name has the prefix. */
  function SumPrefixed(processes: seq<Process>, m: nat, prefix: string): int
    requires m <= |processes|
  {
    if m == 0 then 0 else
      SumPrefixed(processes, m - 1, prefix)
      + if HasPrefix(processes[m - 1].poolName, prefix) then processes[m - 1].cpus else 0
  }

  /** CPUs asked for by the first m processes from one pool. */
  function TotalOf(processes: seq<Process>, m: nat, pool: string): int
    requires m <= |processes|
  {
    if m == 0 then 0 else
      TotalOf(processes, m - 1, pool) + if processes[m - 1].poolName == pool then processes[m - 1].cpus else 0
  }

  /** The pools of the first m processes, each once, in the order of first mention. */
  function PoolsOf(processes: seq<Process>, m: nat): (pools: seq<string>)
    requires m <= |processes|
    ensures forall i, j | 0 <= i < j < |pools| :: pools[i] != pools[j]
    ensures forall pool :: pool in pools <==> exists i :: 0 <= i < m && processes[i].poolName == pool
  {
    if m == 0 then [] else
      var before := PoolsOf(processes, m - 1);
      var pool := processes[m - 1].poolName;
      if pool in before then before else before + [pool]
  }

  /** The pool is mentioned by one of these processes, and first by this one. */
  ghost predicate MentionedFirst(processes: seq<Process>, p: nat, pool: string) {
    p < |processes| && processes[p].poolName == pool && forall q | 0 <= q < p :: processes[q].poolName != pool
  }

  lemma {:induction false} FirstMention(processes: seq<Process>, m: nat, pool: string) returns (p: nat)
    requires m <= |processes| && exists i :: 0 <= i < m && processes[i].poolName == pool
    ensures p < m && MentionedFirst(processes, p, pool)
  {
    if i :| 0 <= i < m - 1 && processes[i].poolName == pool {
      p := FirstMention(processes, m - 1, pool);
    } else {
      p := m - 1;
    }
  }

  /** The list grows by a pool that the next process is the first to mention. */
  lemma NextPool(processes: seq<Process>, m: nat)
    requires 0 < m <= |processes|
    ensures var before, pools := PoolsOf(processes, m - 1), PoolsOf(processes, m);
      pools == before || (pools == before + [processes[m - 1].poolName] && MentionedFirst(processes, m - 1, processes[m - 1].poolName))
  {
  }

  ghost predicate MentionedBefore(processes: seq<Process>, m: nat, pool: string, later: string) {
    exists p: nat, q: nat :: p < q < m && MentionedFirst(processes, p, pool) && MentionedFirst(processes, q, later)
  }

  lemma MentionedInFront(processes: seq<Process>, m: nat, pool: string)
    requires 0 < m <= |processes| && pool in PoolsOf(processes, m - 1)
    requires MentionedFirst(processes, m - 1, processes[m - 1].poolName)
    ensures MentionedBefore(processes, m, pool, processes[m - 1].poolName)
  {
    var p := FirstMention(processes, m - 1, pool);
  }

  /** An earlier pool of the list is mentioned before a later one. */
  lemma {:induction false} PoolsInOrder(processes: seq<Process>, m: nat, pools: seq<string>, i: nat, j: nat)
    requires m <= |processes| && pools == PoolsOf(processes, m) && i < j < |pools|
    ensures MentionedBefore(processes, m, pools[i], pools[j])
  {
    var before := PoolsOf(processes, m - 1);
    NextPool(processes, m);
    if j < |before| {
      PoolsInOrder(processes, m - 1, before, i, j);
    } else {
      assert before[i] in before;
      MentionedInFront(processes, m, before[i]);
    }
  }

  class CPUAnnotation {
    var containers: map<string, AnnotatedContainer>

    /** Every entry is stored under its own name. */
    ghost predicate Valid()
      reads this
    {
      forall name | name in containers :: containers[name].name == name
    }

    /** The processes annotated for a container. */
    function Processes(name: string): seq<Process>
      reads this
    {
      if name in containers then containers[name].processes else []
    }

    /** NewCPUAnnotation */
    constructor ()
      ensures Valid() && containers == map[]
    {
      containers := map[];
    }

    /** Decode, given the entries that the JSON text holds. A text that is not well formed
        adds the entries before the fault and is refused. */
    method Decode(entries: seq<AnnotatedContainer>, wellFormed: bool) returns (error: Option<DecodeError>)
      requires Valid()
      modifies this
      ensures Valid() && containers == old(containers) + ByName(entries, |entries|)
      ensures error == None <==> wellFormed && forall name | name in containers :: Faultless(containers[name])
      ensures error.Some? ==>
        if !wellFormed then error == Some(NotJson)
        else exists name :: name in containers && IsFault(containers[name], error.value)
    {
      for i := 0 to |entries|
        invariant containers == old(containers) + ByName(entries, i) && Valid()
      {
        containers := containers[entries[i].name := entries[i]];
      }
      if !wellFormed {
        return Some(NotJson);
      }
      error := CheckContainers();
    }

    /** The loop over all entries at the end of Decode, in any order. */
    method CheckContainers() returns (error: Option<DecodeError>)
      ensures error == None <==> forall name | name in containers :: Faultless(containers[name])
      ensures error.Some? ==> exists name :: name in containers && IsFault(containers[name], error.value)
    {
      var remaining := containers.Keys;
      while remaining != {}
        invariant remaining <= containers.Keys
        invariant forall name | name in containers.Keys - remaining :: Faultless(containers[name])
        decreases remaining
      {
        var name :| name in remaining;
        error := CheckContainer(containers[name]);
        if error.Some? {
          return;
        }
        remaining := remaining - {name};
      }
      return None;
    }

    /** The checks of Decode on one entry. */
    static method CheckContainer(c: AnnotatedContainer) returns (error: Option<DecodeError>)
      ensures error == None <==> Faultless(c)
      ensures error.Some? ==> IsFault(c, error.value)
    {
      if c.name == "" {
        return Some(NoContainerName);
      }
      if c.processes == [] {
        return Some(NoProcesses);
      }
      for i := 0 to |c.processes|
        invariant forall j | 0 <= j < i :: ProcessFault(c.processes[j]) == None
      {
        if c.processes[i].procName == "" {
          return Some(NoProcessName);
        }
        if c.processes[i].cpus == 0 {
          return Some(NoCpus);
        }
      }
      return None;
    }

    /** Containers: the names of all entries, in any order. */
    method Containers() returns (names: seq<string>)
      requires Valid()
      ensures IsOrder(names, containers.Keys)
    {
      names := [];
      var remaining := containers.Keys;
      while remaining != {}
        invariant remaining <= containers.Keys
        invariant IsOrder(names, containers.Keys - remaining)
        decreases remaining
      {
        var key :| key in remaining;
        names := names + [containers[key].name];
        remaining := remaining - {key};
      }
    }

    /** ContainerExists */
    predicate ContainerExists(name: string)
      reads this
    {
      name in containers
    }

    /** ContainerSharedCPUTime */
    method ContainerSharedCPUTime(name: string) returns (cpuTime: int)
      requires Valid()
      ensures cpuTime == SumPrefixed(Processes(name), |Processes(name)|, SHARED_POOL_ID)
    {
      cpuTime := SumOverEntries(name, SHARED_POOL_ID);
    }

    /** ContainerExclusiveCPU */
    method ContainerExclusiveCPU(name: string) returns (cpuTime: int)
      requires Valid()
      ensures cpuTime == SumPrefixed(Processes(name), |Processes(name)|, EXCLUSIVE_POOL_ID)
    {
      cpuTime := SumOverEntries(name, EXCLUSIVE_POOL_ID);
    }

    /** The loops of the two sums: over the map in any order, and the processes within. */
    method SumOverEntries(name: string, prefix: string) returns (cpuTime: int)
      requires Valid()
      ensures cpuTime == SumPrefixed(Processes(name), |Processes(name)|, prefix)
    {
      cpuTime := 0;
      var remaining := containers.Keys;
      while remaining != {}
        invariant remaining <= containers.Keys
        invariant cpuTime == if name in containers.Keys - remaining
                             then SumPrefixed(Processes(name), |Processes(name)|, prefix) else 0
        decreases remaining
      {
        var key :| key in remaining;
        if containers[key].name == name {
          var processes := containers[key].processes;
          for i := 0 to |processes|
            invariant cpuTime == SumPrefixed(processes, i, prefix)
          {
            if HasPrefix(processes[i].poolName, prefix) {
              cpuTime := cpuTime + processes[i].cpus;
            }
          }
        }
        remaining := remaining - {key};
      }
    }

    /** ContainerTotalCPURequest */
    method ContainerTotalCPURequest(pool: string, name: string) returns (cpuRequest: int)
      requires Valid()
      ensures cpuRequest == TotalOf(Processes(name), |Processes(name)|, pool)
    {
      cpuRequest := 0;
      var remaining := containers.Keys;
      while remaining != {}
        invariant remaining <= containers.Keys
        invariant cpuRequest == if name in containers.Keys - remaining
                                then TotalOf(Processes(name), |Processes(name)|, pool) else 0
        decreases remaining
      {
        var key :| key in remaining;
        if containers[key].name == name {
          var processes := containers[key].processes;
          for i := 0 to |processes|
            invariant cpuRequest == TotalOf(processes, i, pool)
          {
            if processes[i].poolName == pool {
              cpuRequest := cpuRequest + processes[i].cpus;
            }
          }
        }
        remaining := remaining - {key};
      }
    }

    /** ContainerPools */
    method ContainerPools(name: string) returns (pools: seq<string>)
      requires Valid()
      ensures pools == PoolsOf(Processes(name), |Processes(name)|)
    {
      pools := [];
      var poolMap: set<string> := {};
      var remaining := containers.Keys;
      while remaining != {}
        invariant remaining <= containers.Keys
        invariant forall pool :: pool in poolMap <==> pool in pools
        invariant pools == if name in containers.Keys - remaining then PoolsOf(Processes(name), |Processes(name)|) else []
        decreases remaining
      {
        var key :| key in remaining;
        if containers[key].name == name {
          var processes := containers[key].processes;
          for i := 0 to |processes|
            invariant forall pool :: pool in poolMap <==> pool in pools
            invariant pools == PoolsOf(processes, i)
          {
            if processes[i].poolName !in poolMap {
              pools := pools + [processes[i].poolName];
              poolMap := poolMap + {processes[i].poolName};
            }
          }
        }
        remaining := remaining - {key};
      }
    }
  }

  // ---- Sums over pools and over processes ----

  /** The totals of the listed pools with the prefix. */
  function SumOfTotals(pools: seq<string>, n: nat, processes: seq<Process>, m: nat, prefix: string): int
    requires n <= |pools| && m <= |processes|
  {
    if n == 0 then 0 else
      SumOfTotals(pools, n - 1, processes, m, prefix)
      + if HasPrefix(pools[n - 1], prefix) then TotalOf(processes, m, pools[n - 1]) else 0
  }

  /** What one more process adds: its CPUs once, if its pool is listed. */
  lemma {:induction false} ProcessAdds(pools: seq<string>, n: nat, processes: seq<Process>, m: nat, prefix: string)
    requires n <= |pools| && 0 < m <= |processes|
    requires forall i, j | 0 <= i < j < |pools| :: pools[i] != pools[j]
    ensures var pool := processes[m - 1].poolName;
      SumOfTotals(pools, n, processes, m, prefix)
      == SumOfTotals(pools, n, processes, m - 1, prefix)
         + if pool in pools[..n] && HasPrefix(pool, prefix) then processes[m - 1].cpus else 0
  {
    if n > 0 {
      ProcessAdds(pools, n - 1, processes, m, prefix);
      var pool := processes[m - 1].poolName;
      assert pool in pools[..n] <==> pool in pools[..n - 1] || pool == pools[n - 1];
    }
  }

  lemma {:induction false} SameFront(pools: seq<string>, longer: seq<string>, n: nat, processes: seq<Process>, m: nat, prefix: string)
    requires n <= |pools| <= |longer| && m <= |processes| && forall i | 0 <= i < |pools| :: pools[i] == longer[i]
    ensures SumOfTotals(pools, n, processes, m, prefix) == SumOfTotals(longer, n, processes, m, prefix)
  {
    if n > 0 {
      SameFront(pools, longer, n - 1, processes, m, prefix);
    }
  }

  lemma {:induction false} UnmentionedTotal(processes: seq<Process>, m: nat, pool: string)
    requires m <= |processes| && forall i | 0 <= i < m :: processes[i].poolName != pool
    ensures TotalOf(processes, m, pool) == 0
  {
    if m > 0 {
      UnmentionedTotal(processes, m - 1, pool);
    }
  }

  /** Summing the totals over the distinct pools with a prefix gives the sum over all
      processes with that prefix; the empty prefix gives the sum over all processes. */
  lemma {:induction false} TotalsCoverProcesses(processes: seq<Process>, m: nat, prefix: string)
    requires m <= |processes|
    ensures var pools := PoolsOf(processes, m);
      SumOfTotals(pools, |pools|, processes, m, prefix) == SumPrefixed(processes, m, prefix)
  {
    if m > 0 {
      var before, pools := PoolsOf(processes, m - 1), PoolsOf(processes, m);
      TotalsCoverProcesses(processes, m - 1, prefix);
      ProcessAdds(pools, |pools|, processes, m, prefix);
      assert pools[..|pools|] == pools && processes[m - 1].poolName in pools;
      if |pools| > |before| {
        NewPool(before, processes, m, prefix);
      }
    }
  }

  /** A pool that no earlier process mentions adds nothing to the totals before. */
  lemma NewPool(before: seq<string>, processes: seq<Process>, m: nat, prefix: string)
    requires 0 < m <= |processes| && forall i | 0 <= i < m - 1 :: processes[i].poolName != processes[m - 1].poolName
    ensures SumOfTotals(before + [processes[m - 1].poolName], |before| + 1, processes, m - 1, prefix)
         == SumOfTotals(before, |before|, processes, m - 1, prefix)
  {
    SameFront(before, before + [processes[m - 1].poolName], |before|, processes, m - 1, prefix);
    UnmentionedTotal(processes, m - 1, processes[m - 1].poolName);
  }

  /** The last entry of a name is kept. */
  lemma {:induction false} LastIsKept(entries: seq<AnnotatedContainer>, m: nat, j: nat)
    requires j < m <= |entries| && forall k | j < k < m :: entries[k].name != entries[j].name
    ensures entries[j].name in ByName(entries, m) && ByName(entries, m)[entries[j].name] == entries[j]
  {
    if j < m - 1 {
      LastIsKept(entries, m - 1, j);
    }
  }
}
