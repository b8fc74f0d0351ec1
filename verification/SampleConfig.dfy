/** The pools of the sample configuration that is shipped for a node, and how the programs
    read their names. */
module SampleConfig {
  import opened CpuSets
  import opened CorrectCpuset
  import opened GoText
  import opened Pools
  import opened PoolRequests

  const PLAIN := "exclusive-pool"
  const MULTI := "exclusive-pool-cloudphone-2"
  const LAYERED := "exclusive-pool-cloudphon-ex"
  const PHONES := "cloudphone-pool-ex"
  const SHARED := "shared-pool"
  const DEFAULT := "default"

  const NAMES := {PLAIN, MULTI, LAYERED, PHONES, SHARED, DEFAULT}

  /** The CPUs from the first to the last. */
  function Range(first: nat, last: nat): (s: CPUSet)
    ensures forall c :: c in s <==> first <= c <= last
    decreases last + 1 - first
  {
    if first > last then {} else {first} + Range(first + 1, last)
  }

  function CpusOf(name: string): CPUSet {
    if name == PLAIN then {4, 5}
    else if name == MULTI || name == LAYERED then Range(64, 127)
    else if name == PHONES then Range(8, 31) + Range(36, 63) + Range(68, 95) + Range(100, 127)
    else if name == SHARED then Range(10, 63)
    else {0}
  }

  function OvercommitmentOf(name: string): int {
    if name == LAYERED then 3 else if name == PHONES then 4 else 0
  }

  /** A pool's core map is the part of the machine's topology that lies in the pool. */
  function SamplePool(name: string, topology: map<nat, CoreTopology>): Pool {
    Pool(CpusOf(name), if name == MULTI then MULTI_THREAD_POLICY else SINGLE_THREAD_POLICY, OvercommitmentOf(name),
         map c | c in topology && c in CpusOf(name) :: topology[c])
  }

  function SamplePools(topology: map<nat, CoreTopology>): PoolConfig {
    map name | name in NAMES :: SamplePool(name, topology)
  }

  lemma InSample(name: string, topology: map<nat, CoreTopology>)
    requires name in NAMES
    ensures name in SamplePools(topology) && SamplePools(topology)[name] == SamplePool(name, topology)
  {
  }

  lemma CoresOfPool(name: string, topology: map<nat, CoreTopology>)
    ensures forall k | k in SamplePool(name, topology).coreMap ::
      k in topology && SamplePool(name, topology).coreMap[k] == topology[k]
    ensures forall k | k in topology && k in CpusOf(name) :: k in SamplePool(name, topology).coreMap
  {
  }

  /** Only one pool is multiThreaded. */
  lemma PolicyOf(name: string, topology: map<nat, CoreTopology>)
    ensures SamplePool(name, topology).htPolicy == MULTI_THREAD_POLICY <==> name == MULTI
  {
    PoliciesDiffer();
  }

  lemma SomeCpus()
    ensures 4 in CpusOf(PLAIN) && 8 in CpusOf(PHONES) && 10 in CpusOf(SHARED)
  {
    LettersDiffer();
    assert 8 in Range(8, 31) && 10 in Range(10, 63);
  }

  // ---- Prefixes ----

  lemma LettersDiffer()
    ensures PLAIN[0] == 'e' && MULTI[0] == 'e' && LAYERED[0] == 'e' && PHONES[0] == 'c' && SHARED[0] == 's' && DEFAULT[0] == 'd'
    ensures |PLAIN| == 14 && |MULTI| == 27 && |LAYERED| == 27 && MULTI[24] == 'e' && LAYERED[24] == '-'
    ensures PLAIN != MULTI && PLAIN != LAYERED && MULTI != LAYERED
  {
  }

  /** Only the plain exclusive pool has a name that other names extend. */
  lemma Extensions(name: string, other: string)
    requires name in NAMES && other in NAMES && HasPrefix(other, name)
    ensures other == name || name == PLAIN
  {
    LettersDiffer();
  }

  lemma PlainExtended()
    ensures HasPrefix(MULTI, PLAIN) && HasPrefix(LAYERED, PLAIN)
  {
    assert MULTI[..14] == PLAIN && LAYERED[..14] == PLAIN;
  }

  lemma Types(name: string)
    requires name in NAMES
    ensures HasPrefix(name, SHARED_POOL_ID) <==> name == SHARED
    ensures HasPrefix(name, EXCLUSIVE_POOL_ID) <==> name == PLAIN || name == MULTI || name == LAYERED
    ensures HasPrefix(name, CLOUDPHONE_POOL_ID) <==> name == PHONES
  {
    LettersDiffer();
    assert SHARED_POOL_ID[0] == 's' && EXCLUSIVE_POOL_ID[0] == 'e' && CLOUDPHONE_POOL_ID[0] == 'c';
    assert SHARED[..6] == SHARED_POOL_ID && PHONES[..10] == CLOUDPHONE_POOL_ID;
    assert PLAIN[..9] == EXCLUSIVE_POOL_ID && MULTI[..9] == EXCLUSIVE_POOL_ID && LAYERED[..9] == EXCLUSIVE_POOL_ID;
  }

  lemma PoliciesDiffer()
    ensures MULTI_THREAD_POLICY != SINGLE_THREAD_POLICY
  {
    assert MULTI_THREAD_POLICY[0] == 'm' && SINGLE_THREAD_POLICY[0] == 's';
  }

  // ---- Resources ----

  function Resource(pool: string): string {
    POOL_PREFIX + pool
  }

  /** A text that contains another one has all its letters. */
  lemma HasLetter(s: string, sub: string, k: nat)
    requires k < |sub|
    ensures Contains(s, sub) ==> sub[k] in s
  {
    if i :| 0 <= i <= |s| && OccursAt(s, sub, i) {
      assert s[i..i + |sub|][k] == s[i + k];
    }
  }

  lemma ContainsParts(pool: string, part: string)
    requires HasPrefix(pool, part)
    ensures Contains(Resource(pool), RESOURCE_BASE_NAME) && Contains(Resource(pool), part)
  {
    var r := Resource(pool);
    assert POOL_PREFIX[..|RESOURCE_BASE_NAME|] == RESOURCE_BASE_NAME;
    assert r[0..0 + |RESOURCE_BASE_NAME|] == RESOURCE_BASE_NAME;
    assert OccursAt(r, RESOURCE_BASE_NAME, 0);
    assert r[|POOL_PREFIX|..] == pool;
    assert r[|POOL_PREFIX|..|POOL_PREFIX| + |part|] == part;
    assert OccursAt(r, part, |POOL_PREFIX|);
  }

  /** A letter found neither in the pool's name nor before it rules another name out. */
  lemma LettersApart(pool: string, other: string, k: nat)
    requires k < |other| && other[k] !in pool && other[k] !in POOL_PREFIX
    ensures !Contains(Resource(pool), other)
  {
    HasLetter(Resource(pool), other, k);
  }

  lemma ReadAsShared(pool: string)
    requires HasPrefix(pool, SHARED_POOL_ID)
    ensures SetterKind(Resource(pool)) == SharedKind
  {
    ContainsParts(pool, SHARED_POOL_ID);
  }

  lemma ReadAsExclusive(pool: string)
    requires HasPrefix(pool, EXCLUSIVE_POOL_ID) && 'a' !in pool
    ensures SetterKind(Resource(pool)) == ExclusiveKind
  {
    ContainsParts(pool, EXCLUSIVE_POOL_ID);
    assert SHARED_POOL_ID[2] == 'a' && 'a' !in POOL_PREFIX;
    LettersApart(pool, SHARED_POOL_ID, 2);
  }

  lemma ReadAsCloudphone(pool: string)
    requires HasPrefix(pool, CLOUDPHONE_POOL_ID) && 'a' !in pool && 'v' !in pool
    ensures SetterKind(Resource(pool)) == CloudphoneKind
  {
    ContainsParts(pool, CLOUDPHONE_POOL_ID);
    assert SHARED_POOL_ID[2] == 'a' && EXCLUSIVE_POOL_ID[7] == 'v' && 'a' !in POOL_PREFIX && 'v' !in POOL_PREFIX;
    LettersApart(pool, SHARED_POOL_ID, 2);
    LettersApart(pool, EXCLUSIVE_POOL_ID, 7);
  }

  /** The setter, which looks for parts of the name, takes them for what they are. */
  lemma SetterKinds()
    ensures SetterKind(Resource(PLAIN)) == ExclusiveKind && SetterKind(Resource(MULTI)) == ExclusiveKind
    ensures SetterKind(Resource(SHARED)) == SharedKind && SetterKind(Resource(PHONES)) == CloudphoneKind
  {
    Types(PLAIN);
    Types(MULTI);
    Types(SHARED);
    Types(PHONES);
    assert 'a' !in PLAIN && 'a' !in MULTI && 'a' !in PHONES && 'v' !in PHONES;
    ReadAsExclusive(PLAIN);
    ReadAsExclusive(MULTI);
    ReadAsShared(SHARED);
    ReadAsCloudphone(PHONES);
  }

  lemma NoSlashes()
    ensures '/' !in PLAIN && '/' !in MULTI && '/' !in SHARED && '/' !in PHONES
  {
  }
}
