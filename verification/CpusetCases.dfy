/** What the setter decides in the cases that a reader may ask for first, on the names of the
    resources, the pools and the kubelet's record. */
module CpusetCases {
  import opened Wrappers
  import opened Checkpoint
  import opened CorrectCpuset
  import opened CpuSets
  import opened CpusetOrder
  import opened DeviceIds
  import opened DevicePlugin
  import opened GoText
  import opened Pools

  // ---- Names ----

  /** The name mentions the pools, and not a kind that is looked for before these words. */
  ghost predicate IsKind(r: string, word: string, before: seq<string>) {
    Contains(r, "bonc.k8s.io") && Contains(r, word) && forall i | 0 <= i < |before| :: !Contains(r, before[i])
  }

  ghost predicate IsForeign(r: string) {
    !Contains(r, "bonc.k8s.io") || (!Contains(r, "shared") && !Contains(r, "exclusive") && !Contains(r, "cloudphone"))
  }

  lemma KindExactly(r: string)
    ensures SetterKind(r) == SharedKind <==> IsKind(r, "shared", [])
    ensures SetterKind(r) == ExclusiveKind <==> IsKind(r, "exclusive", ["shared"])
    ensures SetterKind(r) == CloudphoneKind <==> IsKind(r, "cloudphone", ["shared", "exclusive"])
    ensures SetterKind(r) == OtherKind <==> IsForeign(r)
  {
    var one, two := ["shared"], ["shared", "exclusive"];
    assert one[0] == "shared" && two[0] == "shared" && two[1] == "exclusive";
  }

  /** The pool is what stands between the first two slashes. */
  lemma {:induction false} SecondOfMany(first: string, second: string, rest: string)
    requires '/' !in first && '/' !in second && (rest == "" || rest[0] == '/')
    ensures '/' in first + "/" + second + rest && SecondPart(first + "/" + second + rest) == second
  {
    var s := first + "/" + second + rest;
    assert s[|first|] == '/';
    if first == "" {
      assert s[1..] == second + rest;
      Cut(second, rest);
    } else {
      assert s[0] in first;
      assert s[1..] == first[1..] + "/" + second + rest;
      SecondOfMany(first[1..], second, rest);
    }
  }

  lemma {:induction false} Cut(second: string, rest: string)
    requires '/' !in second && (rest == "" || rest[0] == '/')
    ensures UntilSlash(second + rest) == second
  {
    if second == "" {
      assert second + rest == rest;
    } else {
      assert second[0] in second && (second + rest)[1..] == second[1..] + rest;
      Cut(second[1..], rest);
    }
  }

  // ---- Resources that no pool serves ----

  lemma SameNames(resources: set<string>, r: string)
    requires IsForeign(r)
    ensures forall x :: NamesShared(resources + {r}, x) <==> NamesShared(resources, x)
    ensures forall x :: NamesExclusive(resources + {r}, x) <==> NamesExclusive(resources, x)
  {
    KindExactly(r);
  }

  lemma SameSums(c: Container, r: string, shared: CPUSet, exclusive: CPUSet)
    requires c.Valid() && IsForeign(r) && c.(resources := c.resources + {r}).Valid()
    ensures IsSum(c.(resources := c.resources + {r}), shared, exclusive) <==> IsSum(c, shared, exclusive)
  {
    var d := c.(resources := c.resources + {r});
    SameNames(c.resources, r);
    forall x ensures OwnsFrom(d, d.resources, x, exclusive) <==> OwnsFrom(c, c.resources, x, exclusive) {
    }
  }

  lemma SameStops(c: Container, r: string, decision: Decision)
    requires c.Valid() && IsForeign(r) && c.(resources := c.resources + {r}).Valid()
    ensures HasStopper(c.(resources := c.resources + {r})) <==> HasStopper(c)
    ensures MayStopWith(c.(resources := c.resources + {r}), decision) <==> MayStopWith(c, decision)
  {
    var d := c.(resources := c.resources + {r});
    KindExactly(r);
    forall x ensures IsStopper(d, x) <==> IsStopper(c, x) {
    }
    forall x | IsStopper(c, x) ensures MayStop(d, x, decision) <==> MayStop(c, x, decision) {
    }
  }

  /** Requests for anything else, such as memory or another vendor's devices, change nothing. */
  lemma ForeignIgnored(c: Container, r: string, decision: Decision)
    requires c.Valid() && IsForeign(r)
    ensures c.(resources := c.resources + {r}).May(decision) <==> c.May(decision)
  {
    var d := c.(resources := c.resources + {r});
    KindExactly(r);
    assert d.Valid();
    MayExactly(c, decision);
    MayExactly(d, decision);
    SameStops(c, r, decision);
    forall shared, exclusive ensures IsSum(d, shared, exclusive) <==> IsSum(c, shared, exclusive) {
      SameSums(c, r, shared, exclusive);
    }
    forall shared, exclusive, cgroup ensures MaySum(d, shared, exclusive, cgroup) <==> MaySum(c, shared, exclusive, cgroup) {
      assert IsSum(d, shared, exclusive) <==> IsSum(c, shared, exclusive);
    }
  }

  ghost predicate HasDefault(pools: PoolConfig, name: string) {
    name in pools && HasPrefix(name, "default")
  }

  /** The CPUs of a default pool; none without one. */
  ghost predicate AreDefaultCPUs(pools: PoolConfig, cpus: CPUSet) {
    if exists name :: HasDefault(pools, name)
    then exists name :: HasDefault(pools, name) && pools[name].cpus == cpus
    else cpus == {}
  }

  lemma DefaultPools(s: Setter, cpus: CPUSet)
    ensures s.MayBeDefault(cpus) <==> AreDefaultCPUs(s.pools, cpus)
  {
    forall name ensures Matches(s.pools, DEFAULT_POOL_ID, name) <==> HasDefault(s.pools, name) {
    }
    if name :| HasDefault(s.pools, name) && s.pools[name].cpus == cpus {
      assert Selects(s.pools, DEFAULT_POOL_ID, s.pools[name]);
    }
    if forall name :: !HasDefault(s.pools, name) {
      assert Selects(s.pools, DEFAULT_POOL_ID, NO_POOL);
    }
  }

  /** A container that asks for none of the pools runs on the CPUs of a default pool. */
  lemma DefaultExactly(c: Container, cpus: CPUSet)
    requires c.Valid() && forall r | r in c.resources :: IsForeign(r)
    ensures c.MayHold(cpus) <==> AreDefaultCPUs(c.setter.pools, cpus)
  {
    forall r | r in c.resources ensures SetterKind(r) == OtherKind {
      KindExactly(r);
    }
    assert !HasStopper(c);
    ResultsAreDecisions(c);
    DefaultPools(c.setter, cpus);
    forall s, e ensures IsSum(c, s, e) <==> s == {} && e == {} {
    }
    if c.MayHold(cpus) {
      var config :| c.May(Decided(config, cpus));
      var s, e := SumOfResult(c, cpus);
    }
    if c.setter.MayBeDefault(cpus) {
      ResultOfSum(c, {}, {}, cpus);
      assert c.May(Decided(cpus, cpus));
    }
  }

  /** Without a pool under its name, an exclusive resource gets its CPUs without siblings. */
  lemma NoPoolNoSiblings(s: Setter, r: string, cpus: CPUSet, expanded: CPUSet)
    requires '/' in r && forall name | name in s.pools :: !HasPrefix(name, SecondPart(r))
    ensures s.MayExpand(r, cpus, expanded) <==> expanded == cpus
  {
    assert NO_POOL.htPolicy != MULTI_THREAD_POLICY;
    assert forall name :: !Matches(s.pools, SecondPart(r), name);
    assert Selects(s.pools, SecondPart(r), NO_POOL);
  }

  ghost predicate HasPool(s: Setter, r: string, name: string)
    requires '/' in r
  {
    name in s.pools && HasPrefix(name, SecondPart(r))
  }

  /** Go's answer for a CPU without an entry is node 0: when no pool that may be selected knows
      the first CPU, a cloudphone container gets the cores that one of them has on node 0. */
  lemma UnknownOnNodeZero(s: Setter, r: string, cpus: CPUSet, cgroup: CPUSet)
    requires '/' in r && cpus != {} && exists name :: HasPool(s, r, name)
    requires forall name | HasPool(s, r, name) :: List(cpus)[0] !in s.pools[name].coreMap
    ensures s.MayBeCores(r, cpus, cgroup)
       <==> exists name :: HasPool(s, r, name) && cgroup == Setter.CoresOnNode(s.pools[name].coreMap, 0)
  {
    forall name ensures Matches(s.pools, SecondPart(r), name) <==> HasPool(s, r, name) {
    }
    if name :| HasPool(s, r, name) && cgroup == Setter.CoresOnNode(s.pools[name].coreMap, 0) {
      assert Selects(s.pools, SecondPart(r), s.pools[name]);
    }
  }

  // ---- Records that cannot be used ----

  ghost predicate NeedsDevices(c: Container, r: string) {
    r in c.resources && !IsForeign(r) && !Contains(r, "shared")
  }

  /** When the checkpoint cannot be read, the setter decides on nothing for a container that
      asks for exclusive or cloudphone CPUs, and on a CPU set for every other one. */
  lemma UnreadableCheckpoint(c: Container, decision: Decision)
    requires c.Valid() && c.setter.checkpoint == None
    ensures (exists r :: NeedsDevices(c, r)) ==> (c.May(decision) <==> decision == Undecidable)
    ensures (forall r :: !NeedsDevices(c, r)) && c.May(decision) ==> decision.Decided?
  {
    forall r ensures NeedsDevices(c, r) <==> IsStopper(c, r) {
      KindExactly(r);
    }
    MayExactly(c, decision);
    forall r | IsStopper(c, r) ensures MayStop(c, r, decision) <==> decision == Undecidable {
    }
  }

  /** A cloudphone container for which the kubelet has recorded no device. */
  lemma NoDevices(c: Container, entries: seq<Entry>, r: string, decision: Decision)
    requires c.Valid() && r in c.resources && IsKind(r, "cloudphone", ["shared", "exclusive"])
    requires forall x | x in c.resources && x != r :: IsForeign(x)
    requires c.setter.checkpoint == Some(entries) && forall id :: !Lists(entries, c.podUID, c.name, r, id)
    ensures c.May(decision) <==> decision == Undecidable
  {
    forall x | x in c.resources ensures x == r || SetterKind(x) == OtherKind {
      KindExactly(x);
    }
    KindExactly(r);
    NothingListed(entries, c.podUID, c.name, r);
    NoIdsNoCpus(c.setter.numCPU);
    CloudphoneAlone(c, r, decision);
  }

  lemma NothingListed(entries: seq<Entry>, podUID: string, name: string, r: string)
    requires forall id :: !Lists(entries, podUID, name, r, id)
    ensures AllocatedIds(entries, podUID, name, r) == []
  {
    var ids := AllocatedIds(entries, podUID, name, r);
    if ids != [] {
      AllocatedExactly(entries, podUID, name, r, ids[0]);
    }
  }

  // ---- Cores and threads ----

  /** The setter collects the cores of a node, the plugin its threads; where they are numbered
      differently, so are the sets. */
  lemma CoresAreNotThreads(coreMap: map<nat, CoreTopology>)
    requires coreMap == map[0 := CoreTopology(5, 1)]
    ensures Setter.CoresOnNode(coreMap, 1) == {5} && NodeCPUs(coreMap, 1) == {0}
  {
    assert coreMap[0].core in Setter.CoresOnNode(coreMap, 1);
  }
}
