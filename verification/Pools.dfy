/** CPU pools as the pool configuration of one node describes them. */
module Pools {
  import opened CpuSets
  import opened GoText

  const SHARED_POOL_ID := "shared"
  const EXCLUSIVE_POOL_ID := "exclusive"
  const CLOUDPHONE_POOL_ID := "cloudphone"
  const DEFAULT_POOL_ID := "default"
  /** The value of CPU_POOLS for a container that uses exclusive and shared CPUs. */
  const MIXED_POOLS := "exclusive&shared"
  const SINGLE_THREAD_POLICY := "singleThreaded"
  const MULTI_THREAD_POLICY := "multiThreaded"
  const RESOURCE_BASE_NAME := "bonc.k8s.io"

  /** The part of topology.Topology that decides which CPUs a container gets. */
  datatype CoreTopology = CoreTopology(core: nat, node: int)

  /** The node of a CPU; a Go map answers the zero value for an unknown one. */
  function NodeOf(topology: map<nat, CoreTopology>, cpu: nat): int {
    if cpu in topology then topology[cpu].node else 0
  }

  datatype Pool = Pool(cpus: CPUSet, htPolicy: string, overcommitment: int, coreMap: map<nat, CoreTopology>)

  /** The zero value that SelectPool returns when nothing matches. */
  const NO_POOL := Pool({}, "", 0, map[])

  type PoolConfig = map<string, Pool>

  function DeterminePoolType(poolName: string): string {
    if HasPrefix(poolName, SHARED_POOL_ID) then SHARED_POOL_ID
    else if HasPrefix(poolName, EXCLUSIVE_POOL_ID) then EXCLUSIVE_POOL_ID
    else if HasPrefix(poolName, CLOUDPHONE_POOL_ID) then CLOUDPHONE_POOL_ID
    else DEFAULT_POOL_ID
  }

  /** One order in which a Go map with these keys may be visited. */
  ghost predicate IsOrder<T(!new)>(order: seq<T>, keys: set<T>) {
    && (forall x :: x in order <==> x in keys)
    && (forall i, j | 0 <= i < j < |order| :: order[i] != order[j])
  }

  lemma {:induction false} SomeOrder<T(!new)>(keys: set<T>) returns (order: seq<T>)
    ensures IsOrder(order, keys)
  {
    if keys == {} {
      order := [];
    } else {
      var k :| k in keys;
      var rest := SomeOrder(keys - {k});
      order := rest + [k];
    }
  }

  lemma OrderOn<T(!new)>(order: seq<T>, keys: set<T>, k: T)
    requires IsOrder(order, keys) && k !in keys
    ensures IsOrder(order + [k], keys + {k})
  {
    assert forall x :: x in order + [k] <==> x in order || x == k;
  }

  lemma OrdersJoin<T(!new)>(order: seq<T>, keys: set<T>, rest: seq<T>, others: set<T>)
    requires IsOrder(order, keys) && IsOrder(rest, others) && keys !! others
    ensures IsOrder(order + rest, keys + others)
  {
    var all := order + rest;
    assert forall x :: x in all <==> x in order || x in rest;
    forall i, j | 0 <= i < j < |all| ensures all[i] != all[j] {
      assert all[i] in if i < |order| then order else rest;
      assert all[j] in if j < |order| then order else rest;
    }
  }

  ghost predicate Matches(pools: PoolConfig, prefix: string, name: string) {
    name in pools && HasPrefix(name, prefix)
  }

  /** The answers SelectPool can give, over all orders in which it may visit the map. */
  ghost predicate Selects(pools: PoolConfig, prefix: string, pool: Pool) {
    if exists name :: Matches(pools, prefix, name)
    then exists name :: Matches(pools, prefix, name) && pools[name] == pool
    else pool == NO_POOL
  }

  /** PoolConfig.SelectPool: the first pool visited whose name has the prefix. */
  method SelectPool(pools: PoolConfig, prefix: string) returns (pool: Pool)
    ensures Selects(pools, prefix, pool)
  {
    var remaining := pools.Keys;
    while remaining != {}
      invariant remaining <= pools.Keys
      invariant forall name | name in pools.Keys - remaining :: !HasPrefix(name, prefix)
      decreases remaining
    {
      var name :| name in remaining;
      if HasPrefix(name, prefix) {
        assert Matches(pools, prefix, name);
        return pools[name];
      }
      remaining := remaining - {name};
    }
    assert forall name :: !Matches(pools, prefix, name);
    return NO_POOL;
  }

  /** Selecting by a pool's full name finds that pool, whatever the visiting order,
      exactly when every pool whose name extends it has the same definition. */
  lemma SelectExactly(pools: PoolConfig, name: string)
    requires name in pools
    ensures (forall pool :: Selects(pools, name, pool) ==> pool == pools[name])
       <==> (forall other | other in pools && HasPrefix(other, name) :: pools[other] == pools[name])
  {
    assert Matches(pools, name, name);
    if forall pool :: Selects(pools, name, pool) ==> pool == pools[name] {
      forall other | other in pools && HasPrefix(other, name) ensures pools[other] == pools[name] {
        assert Matches(pools, name, other);
        assert Selects(pools, name, pools[other]);
      }
    }
  }

  /** The pools that createCDMs would serve as shared ones. */
  predicate IsShared(pools: PoolConfig, name: string) {
    name in pools && DeterminePoolType(name) == SHARED_POOL_ID
  }

  datatype SharedPoolCheck = SharedPoolCheck(sharedCPUs: CPUSet, ok: bool)

  /** What validatePools answers when it visits the pools in the given order. */
  function ValidatedPools(pools: PoolConfig, order: seq<string>): SharedPoolCheck
    requires forall name | name in order :: name in pools
  {
    if order == [] then SharedPoolCheck({}, true) else
      var before := ValidatedPools(pools, order[..|order| - 1]);
      var name := order[|order| - 1];
      if !before.ok || !IsShared(pools, name) then before
      else if before.sharedCPUs != {} then SharedPoolCheck(before.sharedCPUs, false)
      else SharedPoolCheck(pools[name].cpus, true)
  }

  /** validatePools; an empty CPU set prints as the empty string it compares with. */
  method ValidatePools(pools: PoolConfig, order: seq<string>) returns (sharedCPUs: CPUSet, ok: bool)
    requires forall name | name in order :: name in pools
    ensures SharedPoolCheck(sharedCPUs, ok) == ValidatedPools(pools, order)
  {
    sharedCPUs, ok := {}, true;
    var i := 0;
    while i < |order|
      invariant 0 <= i <= |order|
      invariant ok
      invariant SharedPoolCheck(sharedCPUs, ok) == ValidatedPools(pools, order[..i])
    {
      var name := order[i];
      assert order[..i + 1][..i] == order[..i];
      if DeterminePoolType(name) == SHARED_POOL_ID {
        if sharedCPUs != {} {
          ok := false;
          RejectedStaysRejected(pools, order, i + 1);
          return;
        }
        sharedCPUs := pools[name].cpus;
      }
      i := i + 1;
    }
    assert order[..|order|] == order;
  }

  lemma {:induction false} RejectedStaysRejected(pools: PoolConfig, order: seq<string>, i: nat)
    requires forall name | name in order :: name in pools
    requires i <= |order| && !ValidatedPools(pools, order[..i]).ok
    ensures ValidatedPools(pools, order) == ValidatedPools(pools, order[..i])
  {
    if i < |order| {
      assert order[..|order| - 1][..i] == order[..i];
      RejectedStaysRejected(pools, order[..|order| - 1], i);
    } else {
      assert order[..i] == order;
    }
  }

  /** A shared pool visited at position i with another, non-empty one before it. */
  predicate SecondSharedAt(pools: PoolConfig, order: seq<string>, h: nat, i: nat) {
    h < i < |order| && IsShared(pools, order[h]) && IsShared(pools, order[i]) && pools[order[h]].cpus != {}
  }

  ghost predicate InSharedPool(pools: PoolConfig, order: seq<string>, c: nat)
    requires forall name | name in order :: name in pools
  {
    exists i :: 0 <= i < |order| && IsShared(pools, order[i]) && c in pools[order[i]].cpus
  }

  /** An accepted configuration answers with the CPUs of all its shared pools. */
  lemma {:induction false} AcceptedSharedCPUs(pools: PoolConfig, order: seq<string>)
    requires forall name | name in order :: name in pools
    requires ValidatedPools(pools, order).ok
    ensures forall c :: c in ValidatedPools(pools, order).sharedCPUs <==> InSharedPool(pools, order, c)
  {
    if order != [] {
      var n := |order| - 1;
      var front := order[..n];
      AcceptedSharedCPUs(pools, front);
      forall c
        ensures InSharedPool(pools, order, c)
           <==> InSharedPool(pools, front, c) || (IsShared(pools, order[n]) && c in pools[order[n]].cpus)
      {
        InSharedOrLast(pools, order, c);
      }
    }
  }

  lemma InSharedOrLast(pools: PoolConfig, order: seq<string>, c: nat)
    requires order != [] && forall name | name in order :: name in pools
    ensures var n := |order| - 1;
      InSharedPool(pools, order, c) <==> InSharedPool(pools, order[..n], c) || (IsShared(pools, order[n]) && c in pools[order[n]].cpus)
  {
    var n := |order| - 1;
    var front := order[..n];
    if i :| 0 <= i < |order| && IsShared(pools, order[i]) && c in pools[order[i]].cpus {
      assert i < n ==> front[i] == order[i];
    }
    if i :| 0 <= i < n && IsShared(pools, front[i]) && c in pools[front[i]].cpus {
      assert order[i] == front[i];
    }
  }

  /** The configuration is refused exactly when some shared pool is visited after a
      non-empty shared pool. */
  lemma {:induction false} RefusedExactly(pools: PoolConfig, order: seq<string>)
    requires forall name | name in order :: name in pools
    ensures !ValidatedPools(pools, order).ok <==> exists h: nat, i: nat :: SecondSharedAt(pools, order, h, i)
  {
    if order != [] {
      var n := |order| - 1;
      RefusedExactly(pools, order[..n]);
      SecondInFront(pools, order, n);
      if ValidatedPools(pools, order[..n]).ok {
        LastIsSecond(pools, order, n);
      }
    }
  }

  lemma SecondInFront(pools: PoolConfig, order: seq<string>, n: nat)
    requires n <= |order|
    ensures forall h: nat, i: nat | i < n :: SecondSharedAt(pools, order, h, i) <==> SecondSharedAt(pools, order[..n], h, i)
  {
  }

  lemma LastIsSecond(pools: PoolConfig, order: seq<string>, n: nat)
    requires |order| == n + 1 && forall name | name in order :: name in pools
    requires ValidatedPools(pools, order[..n]).ok
    ensures !ValidatedPools(pools, order).ok <==> exists h: nat :: SecondSharedAt(pools, order, h, n)
  {
    var front := order[..n];
    var before := ValidatedPools(pools, front);
    AcceptedSharedCPUs(pools, front);
    if before.sharedCPUs != {} {
      var c := Member(before.sharedCPUs);
      assert InSharedPool(pools, front, c);
      var h :| 0 <= h < n && IsShared(pools, front[h]) && c in pools[front[h]].cpus;
      assert IsShared(pools, order[n]) ==> SecondSharedAt(pools, order, h, n);
    } else {
      forall h: nat ensures !SecondSharedAt(pools, order, h, n) {
        assert h < n ==> order[h] == front[h];
      }
    }
  }

  /** The documented restriction (one shared pool in a node) implies acceptance, and
      acceptance under every visiting order implies it, empty shared pools aside. */
  lemma SharedPoolRestriction(pools: PoolConfig, order: seq<string>)
    requires IsOrder(order, pools.Keys)
    ensures (forall a, b | IsShared(pools, a) && IsShared(pools, b) :: a == b) ==> ValidatedPools(pools, order).ok
    ensures ValidatedPools(pools, order).ok ==>
      forall a, b | IsShared(pools, a) && IsShared(pools, b) && pools[a].cpus != {} && pools[b].cpus != {} :: a == b
  {
    RefusedExactly(pools, order);
    if ValidatedPools(pools, order).ok {
      forall a, b | IsShared(pools, a) && IsShared(pools, b) && pools[a].cpus != {} && pools[b].cpus != {}
        ensures a == b
      {
        assert a in order && b in order;
        var i :| 0 <= i < |order| && order[i] == a;
        var j :| 0 <= j < |order| && order[j] == b;
        assert !SecondSharedAt(pools, order, i, j) && !SecondSharedAt(pools, order, j, i);
      }
    } else {
      var h: nat, i: nat :| SecondSharedAt(pools, order, h, i);
    }
  }

  /** The shared pools that have CPUs. */
  predicate IsFilled(pools: PoolConfig, name: string) {
    IsShared(pools, name) && pools[name].cpus != {}
  }

  /** One shared pool has CPUs, and there is an empty one besides. */
  ghost predicate IsHalfEmpty(pools: PoolConfig) {
    && (exists a, b :: IsFilled(pools, a) && IsShared(pools, b) && b != a)
    && forall a, b | IsFilled(pools, a) && IsFilled(pools, b) :: a == b
  }

  /** Any two pools can be visited first, in either order. */
  lemma StartingWith(pools: PoolConfig, a: string, b: string) returns (order: seq<string>)
    requires a in pools && b in pools && a != b
    ensures IsOrder(order, pools.Keys) && |order| >= 2 && order[0] == a && order[1] == b
  {
    var rest := SomeOrder(pools.Keys - {a, b});
    OrderOn([], {}, a);
    OrderOn([a], {a}, b);
    assert [] + [a] == [a] && {} + {a} == {a};
    OrdersJoin([a] + [b], {a} + {b}, rest, pools.Keys - {a, b});
    assert {a} + {b} + (pools.Keys - {a, b}) == pools.Keys;
    order := [a] + [b] + rest;
  }

  lemma EndingWith(pools: PoolConfig, a: string) returns (order: seq<string>)
    requires a in pools
    ensures IsOrder(order, pools.Keys) && order != [] && order[|order| - 1] == a
  {
    var rest := SomeOrder(pools.Keys - {a});
    OrderOn(rest, pools.Keys - {a}, a);
    assert pools.Keys - {a} + {a} == pools.Keys;
    order := rest + [a];
  }

  lemma At(pools: PoolConfig, order: seq<string>, name: string) returns (i: nat)
    requires IsOrder(order, pools.Keys) && name in pools
    ensures i < |order| && order[i] == name
  {
    assert name in order;
    i :| 0 <= i < |order| && order[i] == name;
  }

  /** Two shared pools with CPUs are refused under every order, and without two shared pools,
      or without CPUs in any, none is. */
  lemma SettledVerdict(pools: PoolConfig, order: seq<string>)
    requires IsOrder(order, pools.Keys) && !IsHalfEmpty(pools)
    ensures ValidatedPools(pools, order).ok <==> forall a, b | IsFilled(pools, a) && IsFilled(pools, b) :: a == b
  {
    RefusedExactly(pools, order);
    if a, b :| IsFilled(pools, a) && IsFilled(pools, b) && a != b {
      var i := At(pools, order, a);
      var j := At(pools, order, b);
      assert SecondSharedAt(pools, order, i, j) || SecondSharedAt(pools, order, j, i);
    } else {
      forall h: nat, i: nat ensures !SecondSharedAt(pools, order, h, i) {
        if h < i < |order| {
          assert order[h] != order[i];
          assert IsFilled(pools, order[h]) && IsShared(pools, order[i]) ==> IsHalfEmpty(pools);
        }
      }
    }
  }

  /** The verdict is the same under every visiting order exactly when it is not the case that
      one shared pool has CPUs and another one has none. */
  lemma VerdictSettledExactly(pools: PoolConfig)
    ensures (forall x, y | IsOrder(x, pools.Keys) && IsOrder(y, pools.Keys) :: ValidatedPools(pools, x).ok == ValidatedPools(pools, y).ok)
       <==> !IsHalfEmpty(pools)
  {
    if IsHalfEmpty(pools) {
      var a, b :| IsFilled(pools, a) && IsShared(pools, b) && b != a;
      var x := StartingWith(pools, a, b);
      var y := EndingWith(pools, a);
      RefusedExactly(pools, x);
      assert SecondSharedAt(pools, x, 0, 1);
      RefusedExactly(pools, y);
      assert forall h: nat | h < |y| - 1 :: !IsFilled(pools, y[h]);
      assert forall h: nat, i: nat | h < |y| - 1 :: !SecondSharedAt(pools, y, h, i);
      assert IsOrder(x, pools.Keys) && IsOrder(y, pools.Keys);
    } else {
      forall x, y | IsOrder(x, pools.Keys) && IsOrder(y, pools.Keys)
        ensures ValidatedPools(pools, x).ok == ValidatedPools(pools, y).ok
      {
        SettledVerdict(pools, x);
        SettledVerdict(pools, y);
      }
    }
  }
}
