/** How the webhook reads the CPU pool resources of a container. */
module PoolRequests {
  import opened GoText
  import opened Pools

  const SHARED_PREFIX := "bonc.k8s.io/shared"
  const EXCLUSIVE_PREFIX := "bonc.k8s.io/exclusive"
  const CLOUDPHONE_PREFIX := "bonc.k8s.io/cloudphone"
  const POOL_PREFIX := "bonc.k8s.io/"

  /** containerPoolRequests; the zero value stands for an absent entry. */
  datatype Requests = Requests(shared: int, exclusive: int, cloudphone: int, pools: map<string, int>)

  const NO_REQUESTS := Requests(0, 0, 0, map[])

  ghost function SumOf(limits: map<string, int>, keys: set<string>): int
    requires keys <= limits.Keys
  {
    if keys == {} then 0 else
      var k :| k in keys;
      limits[k] + SumOf(limits, keys - {k})
  }

  lemma {:induction false} SumWithout(limits: map<string, int>, keys: set<string>, key: string)
    requires keys <= limits.Keys && key in keys
    ensures SumOf(limits, keys) == limits[key] + SumOf(limits, keys - {key})
  {
    var first :| first in keys && SumOf(limits, keys) == limits[first] + SumOf(limits, keys - {first});
    if first != key {
      SumWithout(limits, keys - {first}, key);
      SumWithout(limits, keys - {key}, first);
      assert keys - {first} - {key} == keys - {key} - {first};
    }
  }

  function WithPrefix(keys: set<string>, prefix: string): set<string> {
    set k | k in keys && HasPrefix(k, prefix)
  }

  ghost predicate SumsUp(requests: Requests, limits: map<string, int>, keys: set<string>)
    requires keys <= limits.Keys
  {
    && requests.shared == SumOf(limits, WithPrefix(keys, SHARED_PREFIX))
    && requests.exclusive == SumOf(limits, WithPrefix(keys, EXCLUSIVE_PREFIX))
    && requests.cloudphone == SumOf(limits, WithPrefix(keys, CLOUDPHONE_PREFIX))
  }

  /** Resource k is a pool resource under this pool name. */
  predicate Names(k: string, name: string) {
    HasPrefix(k, RESOURCE_BASE_NAME) && TrimPrefix(k, POOL_PREFIX) == name
  }

  /** No two resources of the container name the same pool. */
  ghost predicate NamesDiffer(limits: map<string, int>) {
    forall k, l, name | k in limits && l in limits && Names(k, name) && Names(l, name) :: k == l
  }

  ghost predicate ListsPools(pools: map<string, int>, limits: map<string, int>, keys: set<string>)
    requires keys <= limits.Keys
  {
    && (forall k, name | k in keys && Names(k, name) :: name in pools)
    && (forall name | name in pools :: exists k :: k in keys && Names(k, name) && pools[name] == limits[k])
  }

  /** The sums by kind over some resources, and their values by pool name. */
  ghost predicate Reads(requests: Requests, limits: map<string, int>, keys: set<string>)
    requires keys <= limits.Keys
  {
    SumsUp(requests, limits, keys) && ListsPools(requests.pools, limits, keys)
  }

  function Added(sum: int, key: string, value: int, prefix: string): int {
    if HasPrefix(key, prefix) then sum + value else sum
  }

  lemma SumAdded(limits: map<string, int>, keys: set<string>, key: string, prefix: string)
    requires keys <= limits.Keys && key in limits && key !in keys
    ensures SumOf(limits, WithPrefix(keys + {key}, prefix))
         == Added(SumOf(limits, WithPrefix(keys, prefix)), key, limits[key], prefix)
  {
    if HasPrefix(key, prefix) {
      SumWithout(limits, WithPrefix(keys + {key}, prefix), key);
      assert WithPrefix(keys + {key}, prefix) - {key} == WithPrefix(keys, prefix);
    } else {
      assert WithPrefix(keys + {key}, prefix) == WithPrefix(keys, prefix);
    }
  }

  ghost predicate HasPool(keys: set<string>) {
    exists k :: k in keys && HasPrefix(k, RESOURCE_BASE_NAME)
  }

  lemma HasPoolAdded(keys: set<string>, key: string)
    ensures HasPool(keys + {key}) <==> HasPool(keys) || HasPrefix(key, RESOURCE_BASE_NAME)
  {
    if k :| k in keys && HasPrefix(k, RESOURCE_BASE_NAME) {
      assert k in keys + {key};
    }
  }

  lemma ReadsNothing(limits: map<string, int>)
    ensures Reads(NO_REQUESTS, limits, {})
  {
    assert WithPrefix({}, SHARED_PREFIX) == {} && WithPrefix({}, EXCLUSIVE_PREFIX) == {}
           && WithPrefix({}, CLOUDPHONE_PREFIX) == {};
  }

  /** The inner loop of getCPUPoolRequests, visiting the limits of one container in any
      order; `exists` tells whether the container gets an entry at all. */
  method ReadLimits(limits: map<string, int>) returns (requests: Requests, found: bool)
    ensures Reads(requests, limits, limits.Keys)
    ensures found <==> HasPool(limits.Keys)
    ensures !found ==> requests == NO_REQUESTS
  {
    requests, found := NO_REQUESTS, false;
    ReadsNothing(limits);
    var remaining := limits.Keys;
    ghost var seen: set<string> := {};
    while remaining != {}
      invariant seen == limits.Keys - remaining && remaining <= limits.Keys
      invariant Reads(requests, limits, seen)
      invariant found <==> HasPool(seen)
      invariant !found ==> requests == NO_REQUESTS
      decreases remaining
    {
      var key :| key in remaining;
      HasPoolAdded(seen, key);
      if HasPrefix(key, RESOURCE_BASE_NAME) {
        ReadsAdded(requests, limits, seen, key);
        requests := Add(requests, key, limits[key]);
        found := true;
      } else {
        ReadsSkipped(requests, limits, seen, key);
      }
      remaining := remaining - {key};
      seen := seen + {key};
    }
    assert seen == limits.Keys;
  }

  /** The body of the loop for a pool resource. */
  function Add(requests: Requests, key: string, val: int): Requests {
    Requests(Added(requests.shared, key, val, SHARED_PREFIX),
             Added(requests.exclusive, key, val, EXCLUSIVE_PREFIX),
             Added(requests.cloudphone, key, val, CLOUDPHONE_PREFIX),
             requests.pools[TrimPrefix(key, POOL_PREFIX) := val])
  }

  lemma ReadsAdded(requests: Requests, limits: map<string, int>, seen: set<string>, key: string)
    requires seen <= limits.Keys && key in limits && key !in seen && Reads(requests, limits, seen)
    requires HasPrefix(key, RESOURCE_BASE_NAME)
    ensures Reads(Add(requests, key, limits[key]), limits, seen + {key})
  {
    SumAdded(limits, seen, key, SHARED_PREFIX);
    SumAdded(limits, seen, key, EXCLUSIVE_PREFIX);
    SumAdded(limits, seen, key, CLOUDPHONE_PREFIX);
    PoolsAdded(requests.pools, limits, seen, key);
  }

  lemma PoolsAdded(pools: map<string, int>, limits: map<string, int>, seen: set<string>, key: string)
    requires seen <= limits.Keys && key in limits && ListsPools(pools, limits, seen)
    requires HasPrefix(key, RESOURCE_BASE_NAME)
    ensures ListsPools(pools[TrimPrefix(key, POOL_PREFIX) := limits[key]], limits, seen + {key})
  {
    var added := TrimPrefix(key, POOL_PREFIX);
    var after := pools[added := limits[key]];
    forall name | name in after
      ensures exists k :: k in seen + {key} && Names(k, name) && after[name] == limits[k]
    {
      if name == added {
        assert Names(key, name);
      } else {
        var k :| k in seen && Names(k, name) && pools[name] == limits[k];
      }
    }
  }

  lemma ReadsSkipped(requests: Requests, limits: map<string, int>, seen: set<string>, key: string)
    requires seen <= limits.Keys && key in limits && key !in seen && Reads(requests, limits, seen)
    requires !HasPrefix(key, RESOURCE_BASE_NAME)
    ensures Reads(requests, limits, seen + {key})
  {
    PrefixesNest(key);
    SumAdded(limits, seen, key, SHARED_PREFIX);
    SumAdded(limits, seen, key, EXCLUSIVE_PREFIX);
    SumAdded(limits, seen, key, CLOUDPHONE_PREFIX);
    forall name | name in requests.pools
      ensures exists k :: k in seen + {key} && Names(k, name) && requests.pools[name] == limits[k]
    {
      var k :| k in seen && Names(k, name) && requests.pools[name] == limits[k];
    }
  }

  lemma PrefixesNest(key: string)
    ensures HasPrefix(key, SHARED_PREFIX) || HasPrefix(key, EXCLUSIVE_PREFIX) || HasPrefix(key, CLOUDPHONE_PREFIX)
            ==> HasPrefix(key, RESOURCE_BASE_NAME)
  {
    assert RESOURCE_BASE_NAME <= SHARED_PREFIX && RESOURCE_BASE_NAME <= EXCLUSIVE_PREFIX
           && RESOURCE_BASE_NAME <= CLOUDPHONE_PREFIX;
  }

  /** The value the webhook gives to CPU_POOLS. */
  function CpuPools(requests: Requests): string {
    if requests.exclusive > 0 && requests.shared > 0 then MIXED_POOLS
    else if requests.exclusive > 0 then EXCLUSIVE_POOL_ID
    else if requests.cloudphone > 0 then CLOUDPHONE_POOL_ID
    else if requests.shared > 0 then SHARED_POOL_ID
    else DEFAULT_POOL_ID
  }

  lemma {:induction false} SumPositive(limits: map<string, int>, keys: set<string>)
    requires keys <= limits.Keys && forall k | k in keys :: limits[k] > 0
    ensures SumOf(limits, keys) >= 0
    ensures SumOf(limits, keys) > 0 <==> keys != {}
  {
    if keys != {} {
      var k :| k in keys && SumOf(limits, keys) == limits[k] + SumOf(limits, keys - {k});
      SumPositive(limits, keys - {k});
    }
  }
}
