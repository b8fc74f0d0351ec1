/** The CFS limit that the webhook computes for a container. */
module CfsLimit {
  import opened Wrappers
  import opened GoText
  import opened Pools
  import opened PoolRequests

  const QUOTA_ALL := "all"

  /** The pool names that the loop over the requested pools can end with: one whose amount
      is the amount of all shared requests, or the empty name if there is none. */
  ghost predicate IsTakenForShared(requests: Requests, name: string) {
    if exists n :: n in requests.pools && requests.pools[n] == requests.shared
    then name in requests.pools && requests.pools[name] == requests.shared
    else name == ""
  }

  /** The largest size of a pool among the first n node configurations, in CPU shares. */
  function MaxPoolSize(configs: seq<PoolConfig>, n: nat, name: string): nat
    requires n <= |configs|
  {
    if n == 0 then 0 else
      var before := MaxPoolSize(configs, n - 1, name);
      if name in configs[n - 1] && |configs[n - 1][name].cpus| * 1000 > before
      then |configs[n - 1][name].cpus| * 1000 else before
  }

  /** What getMaxSharedPoolLimit can answer; None stands for unreadable configurations. */
  ghost predicate IsMaxSharedPoolLimit(requests: Requests, configs: Option<seq<PoolConfig>>, limit: int) {
    match configs
    case None => limit == requests.shared
    case Some(all) => exists name :: IsTakenForShared(requests, name) && limit == MaxPoolSize(all, |all|, name)
  }

  method GetMaxSharedPoolLimit(requests: Requests, configs: Option<seq<PoolConfig>>) returns (limit: int)
    ensures IsMaxSharedPoolLimit(requests, configs, limit)
  {
    if configs.None? {
      return requests.shared;
    }
    var sharedPoolName := TakeForShared(requests);
    limit := 0;
    for i := 0 to |configs.value|
      invariant limit == MaxPoolSize(configs.value, i, sharedPoolName)
    {
      if sharedPoolName in configs.value[i] {
        var pool := configs.value[i][sharedPoolName];
        if |pool.cpus| * 1000 > limit {
          limit := |pool.cpus| * 1000;
        }
      }
    }
  }

  /** The loop over the requested pools, in any order: the last match stays. */
  method TakeForShared(requests: Requests) returns (name: string)
    ensures IsTakenForShared(requests, name)
  {
    name := "";
    var remaining := requests.pools.Keys;
    while remaining != {}
      invariant remaining <= requests.pools.Keys
      invariant if exists n :: n in requests.pools.Keys - remaining && requests.pools[n] == requests.shared
                then name in requests.pools && requests.pools[name] == requests.shared
                else name == ""
      decreases remaining
    {
      var poolName :| poolName in remaining;
      if requests.pools[poolName] == requests.shared {
        name := poolName;
      }
      remaining := remaining - {poolName};
    }
  }

  /** The total limit of setRequestLimit, given what getMaxSharedPoolLimit would answer. */
  function TotalCfsLimit(requests: Requests, quotas: string, maxSharedPoolLimit: int): int {
    if requests.exclusive > 0 && quotas == QUOTA_ALL then
      if requests.shared > 0 then 1000 * requests.exclusive + maxSharedPoolLimit else 1000 * requests.exclusive + 100
    else if requests.shared > 0 then requests.shared
    else if requests.cloudphone > 0 && quotas == QUOTA_ALL then 1000 * requests.cloudphone + 100
    else 0
  }

  /** The container mixes exclusive with shared CPUs and gets a limit for both. */
  predicate IsMixed(requests: Requests, quotas: string) {
    requests.exclusive > 0 && quotas == QUOTA_ALL && requests.shared > 0
  }

  /** The limits the webhook can compute for a container. */
  ghost predicate IsCfsLimit(requests: Requests, quotas: string, configs: Option<seq<PoolConfig>>, total: int) {
    if IsMixed(requests, quotas)
    then exists limit :: IsMaxSharedPoolLimit(requests, configs, limit) && total == TotalCfsLimit(requests, quotas, limit)
    else total == TotalCfsLimit(requests, quotas, 0)
  }

  method ComputeCfsLimit(requests: Requests, quotas: string, configs: Option<seq<PoolConfig>>) returns (total: int)
    ensures IsCfsLimit(requests, quotas, configs, total)
  {
    total := 0;
    if requests.exclusive > 0 && quotas == QUOTA_ALL {
      if requests.shared > 0 {
        var limit := GetMaxSharedPoolLimit(requests, configs);
        total := 1000 * requests.exclusive + limit;
      } else {
        total := 1000 * requests.exclusive + 100;
      }
    } else if requests.shared > 0 {
      total := requests.shared;
    } else if requests.cloudphone > 0 && quotas == QUOTA_ALL {
      total := 1000 * requests.cloudphone + 100;
    }
  }

  // ---- When the limit is right ----

  /** A pool is taken for the shared one under every visiting order exactly when its
      amount, and no other pool's, is the amount of all shared requests. */
  lemma TakenExactly(requests: Requests, pool: string)
    requires pool in requests.pools && pool != ""
    ensures (forall name {:trigger IsTakenForShared(requests, name)} :: IsTakenForShared(requests, name) <==> name == pool)
       <==> (forall n | n in requests.pools :: requests.pools[n] == requests.shared <==> n == pool)
  {
    if forall name {:trigger IsTakenForShared(requests, name)} :: IsTakenForShared(requests, name) <==> name == pool {
      assert IsTakenForShared(requests, "") <==> "" == pool;
      assert exists n :: n in requests.pools && requests.pools[n] == requests.shared;
      forall n | n in requests.pools ensures requests.pools[n] == requests.shared <==> n == pool {
        assert IsTakenForShared(requests, n) <==> n == pool;
      }
    } else {
      var name :| IsTakenForShared(requests, name) != (name == pool);
      assert requests.pools[pool] != requests.shared || (name in requests.pools && requests.pools[name] == requests.shared && name != pool);
    }
  }

  /** MaxPoolSize is the maximum: it bounds the pool's size in every configuration, and is
      one of these sizes unless it is zero. */
  lemma {:induction false} MaxPoolSizeIsMax(configs: seq<PoolConfig>, n: nat, name: string)
    requires n <= |configs|
    ensures forall i | 0 <= i < n && name in configs[i] :: 1000 * |configs[i][name].cpus| <= MaxPoolSize(configs, n, name)
    ensures MaxPoolSize(configs, n, name) > 0 ==>
      exists i :: 0 <= i < n && name in configs[i] && 1000 * |configs[i][name].cpus| == MaxPoolSize(configs, n, name)
  {
    if n > 0 {
      MaxPoolSizeIsMax(configs, n - 1, name);
    }
  }

  /** A container that mixes exclusive CPUs with those of one recognisable shared pool, with
      quotas for all: its limit is 1000 per exclusive CPU plus the largest size of that
      pool. So it covers every amount that some node can serve with the 1000 devices per
      CPU that it announces for the pool. */
  lemma MixedLimit(requests: Requests, configs: seq<PoolConfig>, total: int, pool: string)
    requires requests.exclusive > 0 && requests.shared > 0
    requires pool in requests.pools && pool != ""
    requires forall n | n in requests.pools :: requests.pools[n] == requests.shared <==> n == pool
    requires IsCfsLimit(requests, QUOTA_ALL, Some(configs), total)
    ensures total == 1000 * requests.exclusive + MaxPoolSize(configs, |configs|, pool)
    ensures (exists i :: 0 <= i < |configs| && pool in configs[i] && requests.shared <= 1000 * |configs[i][pool].cpus|)
            ==> total >= 1000 * requests.exclusive + requests.shared
  {
    TakenExactly(requests, pool);
    MaxPoolSizeIsMax(configs, |configs|, pool);
  }

  /** With the amount of the shared pool matched by another pool, the limit may not cover
      the shared request although the node can serve it. */
  lemma AmbiguousAmount()
    ensures exists requests: Requests, configs: seq<PoolConfig>, total: int ::
      && requests.exclusive > 0 && requests.shared > 0
      && IsCfsLimit(requests, QUOTA_ALL, Some(configs), total)
      && |configs| == 1 && SHARED_POOL_ID in configs[0] && requests.shared <= 1000 * |configs[0][SHARED_POOL_ID].cpus|
      && total < 1000 * requests.exclusive + requests.shared
  {
    var shared := NO_POOL.(cpus := {0});
    var configs: seq<PoolConfig> := [map[SHARED_POOL_ID := shared]];
    var requests := Requests(2, 2, 0, map[SHARED_POOL_ID := 2, EXCLUSIVE_POOL_ID := 2]);
    assert |shared.cpus| == 1;
    assert SHARED_POOL_ID[0] != EXCLUSIVE_POOL_ID[0];
    assert EXCLUSIVE_POOL_ID in requests.pools && requests.pools[EXCLUSIVE_POOL_ID] == requests.shared;
    assert IsTakenForShared(requests, EXCLUSIVE_POOL_ID);
    assert MaxPoolSize(configs, 0, EXCLUSIVE_POOL_ID) == 0 && MaxPoolSize(configs, 1, EXCLUSIVE_POOL_ID) == 0;
    assert IsMaxSharedPoolLimit(requests, Some(configs), 0);
    assert TotalCfsLimit(requests, QUOTA_ALL, 0) == 2000;
    assert IsCfsLimit(requests, QUOTA_ALL, Some(configs), 2000);
    assert SHARED_POOL_ID in configs[0] && configs[0][SHARED_POOL_ID].cpus == {0};
  }

  // ---- When the limit is settled ----

  /** The resources that count as pool resources. */
  function PoolKeys(limits: map<string, int>): set<string> {
    set k | k in limits && HasPrefix(k, RESOURCE_BASE_NAME)
  }

  ghost function SharedSum(limits: map<string, int>): int {
    SumOf(limits, WithPrefix(limits.Keys, SHARED_PREFIX))
  }

  /** A resource of this name whose amount is not that of all shared requests. */
  ghost predicate HasOtherAmount(limits: map<string, int>, name: string) {
    exists k :: k in limits && Names(k, name) && limits[k] != SharedSum(limits)
  }

  /** The pool names that some reading of the limits, in some order, can end with: one with
      the amount of all shared requests; or none, if every name has another amount. */
  ghost predicate MayBeTaken(limits: map<string, int>, name: string) {
    || (exists k :: k in limits && Names(k, name) && limits[k] == SharedSum(limits))
    || (name == "" && forall k, n | k in limits && Names(k, n) :: HasOtherAmount(limits, n))
  }

  /** A reading of the limits with which the loop can end with this name. */
  ghost predicate TakesFrom(limits: map<string, int>, requests: Requests, name: string) {
    Reads(requests, limits, limits.Keys) && IsTakenForShared(requests, name)
  }

  /** For every pool name, one of the resources that name it. */
  ghost predicate Chooses(limits: map<string, int>, choice: map<string, string>) {
    && (forall k, name | k in limits && Names(k, name) :: name in choice)
    && (forall name | name in choice :: choice[name] in limits && Names(choice[name], name))
  }

  function PoolsOf(limits: map<string, int>, choice: map<string, string>): map<string, int>
    requires forall name | name in choice :: choice[name] in limits
  {
    map name | name in choice :: limits[choice[name]]
  }

  /** Every choice makes a reading. */
  ghost function ReadingOf(limits: map<string, int>, choice: map<string, string>): (requests: Requests)
    requires Chooses(limits, choice)
    ensures Reads(requests, limits, limits.Keys)
  {
    Requests(SharedSum(limits), SumOf(limits, WithPrefix(limits.Keys, EXCLUSIVE_PREFIX)),
             SumOf(limits, WithPrefix(limits.Keys, CLOUDPHONE_PREFIX)), PoolsOf(limits, choice))
  }

  /** A choice that avoids the amount of all shared requests where it can. */
  ghost function Avoiding(limits: map<string, int>, name: string): string
    requires exists k :: k in limits && Names(k, name)
    ensures Avoiding(limits, name) in limits && Names(Avoiding(limits, name), name)
    ensures HasOtherAmount(limits, name) ==> limits[Avoiding(limits, name)] != SharedSum(limits)
  {
    if HasOtherAmount(limits, name) then
      var k :| k in limits && Names(k, name) && limits[k] != SharedSum(limits);
      k
    else
      var k :| k in limits && Names(k, name);
      k
  }

  function NamesIn(limits: map<string, int>): set<string> {
    set k | k in PoolKeys(limits) :: TrimPrefix(k, POOL_PREFIX)
  }

  lemma NamedIn(limits: map<string, int>, name: string)
    ensures name in NamesIn(limits) <==> exists k :: k in limits && Names(k, name)
  {
    if k :| k in limits && Names(k, name) {
      assert k in PoolKeys(limits);
    }
  }

  ghost function AvoidingChoice(limits: map<string, int>): (choice: map<string, string>)
    ensures Chooses(limits, choice)
    ensures forall name | name in choice && HasOtherAmount(limits, name) :: limits[choice[name]] != SharedSum(limits)
  {
    forall name ensures name in NamesIn(limits) <==> exists k :: k in limits && Names(k, name) {
      NamedIn(limits, name);
    }
    map name | name in NamesIn(limits) :: Avoiding(limits, name)
  }

  /** Every name that may be taken is taken in some reading. */
  lemma TakenSomewhere(limits: map<string, int>, name: string) returns (requests: Requests)
    requires MayBeTaken(limits, name)
    ensures TakesFrom(limits, requests, name)
  {
    var choice := AvoidingChoice(limits);
    if k :| k in limits && Names(k, name) && limits[k] == SharedSum(limits) {
      choice := choice[name := k];
      requests := ReadingOf(limits, choice);
      assert name in requests.pools && requests.pools[name] == requests.shared;
    } else {
      requests := ReadingOf(limits, choice);
      forall n | n in requests.pools ensures requests.pools[n] != requests.shared {
        assert choice[n] in limits && Names(choice[n], n);
      }
    }
  }

  /** And every reading takes such a name. */
  lemma TakenIsPossible(limits: map<string, int>, requests: Requests, name: string)
    requires TakesFrom(limits, requests, name)
    ensures MayBeTaken(limits, name)
  {
    if name in requests.pools && requests.pools[name] == requests.shared {
      var k :| k in limits && Names(k, name) && requests.pools[name] == limits[k];
    } else {
      forall k, n | k in limits && Names(k, n) ensures HasOtherAmount(limits, n) {
        assert n in requests.pools;
        var l :| l in limits && Names(l, n) && requests.pools[n] == limits[l];
      }
    }
  }

  /** The container mixes exclusive with shared CPUs and gets a limit for both. */
  ghost predicate MixesIn(limits: map<string, int>, quotas: string) {
    && quotas == QUOTA_ALL && SharedSum(limits) > 0
    && SumOf(limits, WithPrefix(limits.Keys, EXCLUSIVE_PREFIX)) > 0
  }

  /** A condition on the limits and the configurations: the container does not mix, or all
      pools that may be taken for the shared one have one largest size. */
  ghost predicate IsSettled(limits: map<string, int>, quotas: string, configs: Option<seq<PoolConfig>>) {
    MixesIn(limits, quotas) && configs.Some? ==>
      forall m, n | MayBeTaken(limits, m) && MayBeTaken(limits, n) ::
        MaxPoolSize(configs.value, |configs.value|, m) == MaxPoolSize(configs.value, |configs.value|, n)
  }

  /** A CFS limit that the webhook may compute for a container with these limits. */
  ghost predicate MayLimit(limits: map<string, int>, quotas: string, configs: Option<seq<PoolConfig>>, total: int) {
    exists requests :: Reads(requests, limits, limits.Keys) && IsCfsLimit(requests, quotas, configs, total)
  }

  /** The limit of a mixed container when this name is taken for its shared pool. */
  ghost function LimitFor(limits: map<string, int>, configs: seq<PoolConfig>, name: string): int {
    1000 * SumOf(limits, WithPrefix(limits.Keys, EXCLUSIVE_PREFIX)) + MaxPoolSize(configs, |configs|, name)
  }

  ghost predicate LimitsWith(limits: map<string, int>, configs: seq<PoolConfig>, total: int) {
    exists name :: MayBeTaken(limits, name) && total == LimitFor(limits, configs, name)
  }

  lemma LimitTaken(limits: map<string, int>, quotas: string, configs: seq<PoolConfig>, requests: Requests, total: int)
    requires MixesIn(limits, quotas) && Reads(requests, limits, limits.Keys) && IsCfsLimit(requests, quotas, Some(configs), total)
    ensures LimitsWith(limits, configs, total)
  {
    var limit :| IsMaxSharedPoolLimit(requests, Some(configs), limit) && total == TotalCfsLimit(requests, quotas, limit);
    var name :| IsTakenForShared(requests, name) && limit == MaxPoolSize(configs, |configs|, name);
    TakenIsPossible(limits, requests, name);
  }

  lemma TakenLimits(limits: map<string, int>, quotas: string, configs: seq<PoolConfig>, name: string)
    requires MixesIn(limits, quotas) && MayBeTaken(limits, name)
    ensures MayLimit(limits, quotas, Some(configs), LimitFor(limits, configs, name))
  {
    var requests := TakenSomewhere(limits, name);
    assert IsMaxSharedPoolLimit(requests, Some(configs), MaxPoolSize(configs, |configs|, name));
    assert IsCfsLimit(requests, quotas, Some(configs), LimitFor(limits, configs, name));
  }

  /** In a mixed container every name that may be taken leads to its own limit. */
  lemma LimitByName(limits: map<string, int>, quotas: string, configs: seq<PoolConfig>, total: int)
    requires MixesIn(limits, quotas)
    ensures MayLimit(limits, quotas, Some(configs), total) <==> LimitsWith(limits, configs, total)
  {
    if requests :| Reads(requests, limits, limits.Keys) && IsCfsLimit(requests, quotas, Some(configs), total) {
      LimitTaken(limits, quotas, configs, requests, total);
    }
    if name :| MayBeTaken(limits, name) && total == LimitFor(limits, configs, name) {
      TakenLimits(limits, quotas, configs, name);
    }
  }

  /** In any other container the limits settle it. */
  lemma LimitWithoutPools(limits: map<string, int>, quotas: string, configs: Option<seq<PoolConfig>>, t: int, u: int)
    requires !MixesIn(limits, quotas) || configs.None?
    requires MayLimit(limits, quotas, configs, t) && MayLimit(limits, quotas, configs, u)
    ensures t == u
  {
  }

  ghost predicate HasOneLimit(limits: map<string, int>, quotas: string, configs: Option<seq<PoolConfig>>) {
    forall t, u | MayLimit(limits, quotas, configs, t) && MayLimit(limits, quotas, configs, u) :: t == u
  }

  /** All readings of the limits compute one CFS limit exactly when it is settled. */
  lemma LimitSettledExactly(limits: map<string, int>, quotas: string, configs: Option<seq<PoolConfig>>)
    ensures HasOneLimit(limits, quotas, configs) <==> IsSettled(limits, quotas, configs)
  {
    if MixesIn(limits, quotas) && configs.Some? {
      MixedSettledExactly(limits, quotas, configs.value);
    } else {
      forall t, u | MayLimit(limits, quotas, configs, t) && MayLimit(limits, quotas, configs, u) ensures t == u {
        LimitWithoutPools(limits, quotas, configs, t, u);
      }
    }
  }

  lemma MixedSettledExactly(limits: map<string, int>, quotas: string, configs: seq<PoolConfig>)
    requires MixesIn(limits, quotas)
    ensures HasOneLimit(limits, quotas, Some(configs)) <==> IsSettled(limits, quotas, Some(configs))
  {
    if HasOneLimit(limits, quotas, Some(configs)) {
      forall m, n | MayBeTaken(limits, m) && MayBeTaken(limits, n)
        ensures MaxPoolSize(configs, |configs|, m) == MaxPoolSize(configs, |configs|, n)
      {
        TakenLimits(limits, quotas, configs, m);
        TakenLimits(limits, quotas, configs, n);
      }
    }
    if IsSettled(limits, quotas, Some(configs)) {
      forall t, u | MayLimit(limits, quotas, Some(configs), t) && MayLimit(limits, quotas, Some(configs), u) ensures t == u {
        LimitByName(limits, quotas, configs, t);
        LimitByName(limits, quotas, configs, u);
      }
    }
  }

  /** With one shared resource, whose amount no other resource has, only its pool is taken. */
  lemma RecognisedSettles(limits: map<string, int>, quotas: string, configs: Option<seq<PoolConfig>>, k: string)
    requires k in limits && HasPrefix(k, RESOURCE_BASE_NAME)
    requires forall l | l in PoolKeys(limits) :: limits[l] == SharedSum(limits) <==> l == k
    requires forall l | l in limits && Names(l, TrimPrefix(k, POOL_PREFIX)) :: l == k
    ensures IsSettled(limits, quotas, configs)
  {
    var name := TrimPrefix(k, POOL_PREFIX);
    assert Names(k, name);
    assert k in PoolKeys(limits) && !HasOtherAmount(limits, name);
    forall n | MayBeTaken(limits, n) ensures n == name {
      var l :| l in limits && Names(l, n) && limits[l] == SharedSum(limits);
      assert l in PoolKeys(limits);
    }
  }

  lemma OneKey(limits: map<string, int>, key: string, prefix: string)
    requires WithPrefix(limits.Keys, prefix) == {key} && key in limits
    ensures SumOf(limits, WithPrefix(limits.Keys, prefix)) == limits[key]
  {
    SumWithout(limits, {key}, key);
    assert {key} - {key} == {};
  }

  lemma PoolNames()
    ensures TrimPrefix(SHARED_PREFIX, POOL_PREFIX) == SHARED_POOL_ID && TrimPrefix(EXCLUSIVE_PREFIX, POOL_PREFIX) == EXCLUSIVE_POOL_ID
    ensures HasPrefix(SHARED_PREFIX, RESOURCE_BASE_NAME) && HasPrefix(EXCLUSIVE_PREFIX, RESOURCE_BASE_NAME)
    ensures SHARED_POOL_ID != EXCLUSIVE_POOL_ID && SHARED_PREFIX != EXCLUSIVE_PREFIX
    ensures !HasPrefix(SHARED_PREFIX, EXCLUSIVE_PREFIX) && !HasPrefix(EXCLUSIVE_PREFIX, SHARED_PREFIX)
  {
    assert SHARED_PREFIX == POOL_PREFIX + SHARED_POOL_ID;
    assert EXCLUSIVE_PREFIX == POOL_PREFIX + EXCLUSIVE_POOL_ID;
    assert SHARED_PREFIX[12] == 's' && EXCLUSIVE_PREFIX[12] == 'e' && SHARED_POOL_ID[0] == 's' && EXCLUSIVE_POOL_ID[0] == 'e';
    assert POOL_PREFIX[..11] == RESOURCE_BASE_NAME;
  }

  /** A container with two exclusive CPUs and the same amount of a shared pool, which has one
      CPU: the order in which Go visits its pools decides between the limits 2000 and 3000. */
  lemma AmbiguousLimit()
    ensures var limits := map[SHARED_PREFIX := 2, EXCLUSIVE_PREFIX := 2];
      var configs := Some([map[SHARED_POOL_ID := NO_POOL.(cpus := {0})]]);
      && MayLimit(limits, QUOTA_ALL, configs, 2000) && MayLimit(limits, QUOTA_ALL, configs, 3000)
      && !IsSettled(limits, QUOTA_ALL, configs)
  {
    var limits := map[SHARED_PREFIX := 2, EXCLUSIVE_PREFIX := 2];
    PoolNames();
    TwoSizes(limits, [map[SHARED_POOL_ID := NO_POOL.(cpus := {0})]], SHARED_PREFIX, EXCLUSIVE_PREFIX);
  }

  lemma TwoSizes(limits: map<string, int>, configs: seq<PoolConfig>, s: string, e: string)
    requires limits == map[s := 2, e := 2] && s == SHARED_PREFIX && e == EXCLUSIVE_PREFIX && s != e
    requires Names(s, SHARED_POOL_ID) && Names(e, EXCLUSIVE_POOL_ID) && !HasPrefix(s, e) && !HasPrefix(e, s)
    requires SHARED_POOL_ID != EXCLUSIVE_POOL_ID && configs == [map[SHARED_POOL_ID := NO_POOL.(cpus := {0})]]
    ensures MayLimit(limits, QUOTA_ALL, Some(configs), 2000) && MayLimit(limits, QUOTA_ALL, Some(configs), 3000)
    ensures !IsSettled(limits, QUOTA_ALL, Some(configs))
  {
    assert WithPrefix(limits.Keys, s) == {s} && WithPrefix(limits.Keys, e) == {e};
    OneKey(limits, s, s);
    OneKey(limits, e, e);
    assert MayBeTaken(limits, SHARED_POOL_ID) && MayBeTaken(limits, EXCLUSIVE_POOL_ID);
    SizesOfShared(configs, SHARED_POOL_ID, EXCLUSIVE_POOL_ID);
    TakenLimits(limits, QUOTA_ALL, configs, SHARED_POOL_ID);
    TakenLimits(limits, QUOTA_ALL, configs, EXCLUSIVE_POOL_ID);
  }

  lemma SizesOfShared(configs: seq<PoolConfig>, shared: string, other: string)
    requires shared != other && configs == [map[shared := NO_POOL.(cpus := {0})]]
    ensures MaxPoolSize(configs, 1, shared) == 1000 && MaxPoolSize(configs, 1, other) == 0
  {
    assert MaxPoolSize(configs, 0, shared) == 0 && MaxPoolSize(configs, 0, other) == 0;
    assert |configs[0][shared].cpus| == 1;
  }

  /** Whether the limit is positive does not depend on the reading. */
  lemma PositiveAlike(limits: map<string, int>, quotas: string, configs: Option<seq<PoolConfig>>, t: int, u: int)
    requires MayLimit(limits, quotas, configs, t) && MayLimit(limits, quotas, configs, u)
    ensures t > 0 <==> u > 0
    ensures MixesIn(limits, quotas) ==> t > 0
  {
    if MixesIn(limits, quotas) && configs.Some? {
      LimitByName(limits, quotas, configs.value, t);
      LimitByName(limits, quotas, configs.value, u);
    } else {
      LimitWithoutPools(limits, quotas, configs, t, u);
    }
  }

  /** The limit, by the sums over the limits, where no pool sizes count: for a container that
      mixes, when no configuration can be read, and for one that does not mix 1000 a CPU and
      a hundred on top for exclusive CPUs, and for cloudphone CPUs if it has no others, but
      only with quotas for all; else the amount of the shared pools. */
  lemma LimitBySums(limits: map<string, int>, quotas: string, configs: Option<seq<PoolConfig>>, total: int)
    requires MayLimit(limits, quotas, configs, total)
    ensures var exclusive := SumOf(limits, WithPrefix(limits.Keys, EXCLUSIVE_PREFIX));
      var cloudphone := SumOf(limits, WithPrefix(limits.Keys, CLOUDPHONE_PREFIX));
      && (MixesIn(limits, quotas) && configs == None ==> total == 1000 * exclusive + SharedSum(limits))
      && (exclusive > 0 && SharedSum(limits) <= 0 && quotas == "all" ==> total == 1000 * exclusive + 100)
      && (SharedSum(limits) > 0 && (exclusive <= 0 || quotas != "all") ==> total == SharedSum(limits))
      && (exclusive <= 0 && SharedSum(limits) <= 0 && cloudphone > 0 && quotas == "all" ==> total == 1000 * cloudphone + 100)
      && (SharedSum(limits) <= 0 && (quotas != "all" || (exclusive <= 0 && cloudphone <= 0)) ==> total == 0)
  {
  }
}
