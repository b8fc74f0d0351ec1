/** What the device numbering guarantees over every run of a kubelet that hands out
    each advertised device to at most one container at a time. */
module Isolation {
  import opened CpuSets
  import opened DeviceIds
  import opened Pools

  /** A device of a pool held by a container. */
  datatype Grant = Grant(container: string, pool: string, device: nat)

  /** The device numbers of a shared pool. */
  function FirstNumbers(n: nat): (s: set<nat>)
    ensures forall k: nat :: k in s <==> k < n
  {
    if n == 0 then {} else FirstNumbers(n - 1) + {n - 1}
  }

  datatype Event =
    | Allocate(container: string, pool: string, devices: set<nat>)
    | Free(container: string)

  /** The pools whose devices stand for single CPUs. */
  predicate HasCpuDevices(pool: string) {
    DeterminePoolType(pool) == EXCLUSIVE_POOL_ID || DeterminePoolType(pool) == CLOUDPHONE_POOL_ID
  }

  /** A node with its pools by what they advertise: `pools` has those with CPU devices,
      `shared` those of which every holder may use all CPUs. Default pools advertise
      nothing. */
  datatype Node = Node(pools: PoolConfig, shared: PoolConfig, numCPU: nat, cores: Cores) {

    static function FromConfig(config: PoolConfig, numCPU: nat, cores: Cores): Node {
      Node(map p | p in config && HasCpuDevices(p) :: config[p], map p | p in config && IsShared(config, p) :: config[p],
           numCPU, cores)
    }

    /** All CPUs of the pools with CPU devices exist on the machine; no name serves twice. */
    ghost predicate Valid() {
      numCPU > 0 && (forall p, c | p in pools && c in pools[p].cpus :: c < numCPU) && pools.Keys !! shared.Keys
    }

    ghost function Advertised(pool: string): set<nat> {
      if pool in pools then AdvertisedNumbers(pools[pool].cpus, Layers(pools[pool].overcommitment), numCPU)
      else if pool in shared then FirstNumbers(1000 * |shared[pool].cpus|)
      else {}
    }

    ghost predicate Enabled(grants: set<Grant>, event: Event) {
      match event
      case Allocate(_, pool, devices) =>
        && devices <= Advertised(pool)
        && forall g | g in grants && g.pool == pool :: g.device !in devices
      case Free(_) => true
    }

    static ghost function After(grants: set<Grant>, event: Event): set<Grant> {
      match event
      case Allocate(container, pool, devices) => grants + set d | d in devices :: Grant(container, pool, d)
      case Free(container) => set g | g in grants && g.container != container
    }

    static ghost function State(run: seq<Event>): set<Grant> {
      if run == [] then {} else After(State(run[..|run| - 1]), run[|run| - 1])
    }

    ghost predicate IsRun(run: seq<Event>) {
      run == [] || (IsRun(run[..|run| - 1]) && Enabled(State(run[..|run| - 1]), run[|run| - 1]))
    }

    /** Every grant is of an advertised device, and no device has two holders. */
    ghost predicate Invariant(grants: set<Grant>) {
      && (forall g | g in grants :: g.device in Advertised(g.pool))
      && (forall g, h | g in grants && h in grants && g.pool == h.pool && g.device == h.device :: g == h)
    }

    lemma {:induction false} InvariantHolds(run: seq<Event>)
      requires IsRun(run)
      ensures Invariant(State(run))
    {
      if run != [] {
        InvariantHolds(run[..|run| - 1]);
      }
    }

    function Cpu(g: Grant): nat
      requires numCPU > 0
    {
      g.device % numCPU
    }

    lemma GrantDecodes(grants: set<Grant>, g: Grant)
      requires Valid() && Invariant(grants) && g in grants && g.pool in pools
      ensures Cpu(g) in pools[g.pool].cpus
      ensures LayerOf(g) < Layers(pools[g.pool].overcommitment)
    {
      var c: nat, l: nat :| c in pools[g.pool].cpus && l < Layers(pools[g.pool].overcommitment)
                            && DeviceNumber(c, l, numCPU) == g.device;
      DecodeNumber(c, l, numCPU);
    }

    ghost predicate DisjointPools() {
      forall p, q | p in pools && q in pools && p != q :: pools[p].cpus !! pools[q].cpus
    }

    ghost function GrantsOn(grants: set<Grant>, cpu: nat): set<Grant>
      requires numCPU > 0
    {
      set g | g in grants && g.pool in pools && Cpu(g) == cpu
    }

    /** In every reachable state a CPU is held through at most as many devices as its
        pool has layers; CPUs outside the pools are never held. */
    lemma Oversubscription(run: seq<Event>, cpu: nat)
      requires Valid() && DisjointPools() && IsRun(run)
      ensures forall p | p in pools && cpu in pools[p].cpus ::
        |GrantsOn(State(run), cpu)| <= Layers(pools[p].overcommitment)
      ensures (forall p | p in pools :: cpu !in pools[p].cpus) ==> GrantsOn(State(run), cpu) == {}
    {
      var grants := State(run);
      InvariantHolds(run);
      forall g | g in GrantsOn(grants, cpu) ensures cpu in pools[g.pool].cpus {
        GrantDecodes(grants, g);
      }
      forall p | p in pools && cpu in pools[p].cpus
        ensures |GrantsOn(grants, cpu)| <= Layers(pools[p].overcommitment)
      {
        forall g | g in GrantsOn(grants, cpu) ensures LayerOf(g) < Layers(pools[p].overcommitment) {
          FromPool(grants, g, p);
        }
        AtMostLayers(grants, GrantsOn(grants, cpu), p, cpu, Layers(pools[p].overcommitment));
      }
    }

    lemma {:induction false} AtMostLayers(grants: set<Grant>, held: set<Grant>, p: string, cpu: nat, layers: nat)
      requires Valid() && DisjointPools() && Invariant(grants) && held <= grants
      requires p in pools && cpu in pools[p].cpus
      requires forall g | g in held :: g.pool in pools && Cpu(g) == cpu && LayerOf(g) < layers
      ensures |held| <= layers
    {
      if layers == 0 {
        assert held == {};
      } else if g :| g in held && LayerOf(g) == layers - 1 {
        forall h | h in held - {g} ensures LayerOf(h) < layers - 1 {
          if LayerOf(h) == LayerOf(g) {
            SameLayer(grants, p, g, h);
          }
        }
        AtMostLayers(grants, held - {g}, p, cpu, layers - 1);
      } else {
        AtMostLayers(grants, held, p, cpu, layers - 1);
      }
    }

    function LayerOf(g: Grant): nat
      requires numCPU > 0
    {
      g.device / numCPU
    }

    lemma SameLayer(grants: set<Grant>, p: string, g: Grant, h: Grant)
      requires Valid() && DisjointPools() && Invariant(grants) && g in grants && h in grants
      requires g.pool in pools && h.pool in pools
      requires p in pools && Cpu(g) in pools[p].cpus && Cpu(g) == Cpu(h) && LayerOf(g) == LayerOf(h)
      ensures g == h
    {
      FromPool(grants, g, p);
      FromPool(grants, h, p);
      SameDevice(g.device, h.device, numCPU);
    }

    lemma FromPool(grants: set<Grant>, g: Grant, p: string)
      requires Valid() && DisjointPools() && Invariant(grants) && g in grants && g.pool in pools
      requires p in pools && Cpu(g) in pools[p].cpus
      ensures g.pool == p && LayerOf(g) < Layers(pools[p].overcommitment)
    {
      GrantDecodes(grants, g);
    }

    // ---- Isolation of containers ----

    /** The CPUs that one device of a pool with CPU devices opens to its holder. */
    ghost function Opens(pool: string, cpu: nat): CPUSet {
      if pool !in pools then {} else if pools[pool].htPolicy == MULTI_THREAD_POLICY then AddSiblings({cpu}, cores) else {cpu}
    }

    /** A CPU was granted to a container through one of its exclusive or cloudphone
        devices: it is in the CPU list that the plugin gave to the container. */
    ghost predicate IsGranted(grants: set<Grant>, container: string, t: nat)
      requires numCPU > 0
    {
      exists g :: g in grants && g.container == container && t in Opens(g.pool, Cpu(g))
    }

    ghost predicate Isolated(grants: set<Grant>)
      requires numCPU > 0
    {
      forall a, b, t | a != b :: !(IsGranted(grants, a, t) && IsGranted(grants, b, t))
    }

    ghost predicate Apart(p: string, c: nat, q: string, d: nat) {
      Opens(p, c) !! Opens(q, d)
    }

    /** A condition on the configuration alone: no pool with CPUs is overcommitted, and
        two different pool entries never open the same CPU. */
    ghost predicate Separated() {
      && (forall p | p in pools && pools[p].cpus != {} :: Layers(pools[p].overcommitment) == 1)
      && (forall p, c, q, d | p in pools && c in pools[p].cpus && q in pools && d in pools[q].cpus && (p != q || c != d) ::
            Apart(p, c, q, d))
    }

    /** Containers are isolated in every reachable state exactly when the configuration
        is separated. */
    lemma IsolatedExactly()
      requires Valid()
      ensures Separated() <==> forall run | IsRun(run) :: Isolated(State(run))
    {
      if Separated() {
        forall run | IsRun(run) ensures Isolated(State(run)) {
          InvariantHolds(run);
          SeparatedIsolates(State(run));
        }
      } else if p :| p in pools && pools[p].cpus != {} && Layers(pools[p].overcommitment) != 1 {
        var c :| c in pools[p].cpus;
        DecodeNumber(c, 0, numCPU);
        DecodeNumber(c, 1, numCPU);
        Clash(p, c, 0, p, c, 1, c);
      } else {
        var p, c, q, d :| p in pools && c in pools[p].cpus && q in pools && d in pools[q].cpus && (p != q || c != d)
                          && !Apart(p, c, q, d);
        var t :| t in Opens(p, c) && t in Opens(q, d);
        NumberingInjective(c, 0, d, 0, numCPU);
        Clash(p, c, 0, q, d, 0, t);
      }
    }

    lemma SeparatedIsolates(grants: set<Grant>)
      requires Valid() && Invariant(grants) && Separated()
      ensures Isolated(grants)
    {
      forall a, b, t | a != b ensures !(IsGranted(grants, a, t) && IsGranted(grants, b, t)) {
        if IsGranted(grants, a, t) && IsGranted(grants, b, t) {
          var g :| g in grants && g.container == a && t in Opens(g.pool, Cpu(g));
          var h :| h in grants && h.container == b && t in Opens(h.pool, Cpu(h));
          HeldApart(grants, g, h);
        }
      }
    }

    lemma HeldApart(grants: set<Grant>, g: Grant, h: Grant)
      requires Valid() && Invariant(grants) && Separated()
      requires g in grants && h in grants && g != h && g.pool in pools && h.pool in pools
      ensures Apart(g.pool, Cpu(g), h.pool, Cpu(h))
    {
      GrantDecodes(grants, g);
      GrantDecodes(grants, h);
      DistinctEntries(grants, g, h);
    }

    lemma DistinctEntries(grants: set<Grant>, g: Grant, h: Grant)
      requires Valid() && Invariant(grants)
      requires g in grants && h in grants && g != h && h.pool in pools
      requires g.pool in pools && Layers(pools[g.pool].overcommitment) == 1
      ensures g.pool != h.pool || Cpu(g) != Cpu(h)
    {
      GrantDecodes(grants, g);
      GrantDecodes(grants, h);
      if g.pool == h.pool && Cpu(g) == Cpu(h) {
        SameDevice(g.device, h.device, numCPU);
      }
    }

    static lemma SameDevice(x: nat, y: nat, n: nat)
      requires n > 0 && x % n == y % n && x / n == y / n
      ensures x == y
    {
      assert x == n * (x / n) + x % n && y == n * (y / n) + y % n;
    }

    /** Any two devices can be given to two containers. */
    lemma TwoGrants(p: string, x: nat, q: string, y: nat) returns (run: seq<Event>)
      requires x in Advertised(p) && y in Advertised(q) && (p != q || x != y)
      ensures IsRun(run) && State(run) == {Grant("a", p, x), Grant("b", q, y)}
    {
      var first := Allocate("a", p, {x});
      run := [first, Allocate("b", q, {y})];
      assert run[..1] == [first] && [first][..0] == [];
      assert State([]) == {} && IsRun([]);
      assert State([first]) == {Grant("a", p, x)};
      assert IsRun([first]);
    }

    lemma OneGrant(p: string, x: nat) returns (run: seq<Event>)
      requires x in Advertised(p)
      ensures IsRun(run) && State(run) == {Grant("a", p, x)}
    {
      run := [Allocate("a", p, {x})];
      assert run[..0] == [] && State([]) == {} && IsRun([]);
    }

    /** Two devices that open a common CPU break the isolation. */
    lemma Clash(p: string, c: nat, k: nat, q: string, d: nat, l: nat, t: nat)
      requires Valid() && p in pools && c in pools[p].cpus && q in pools && d in pools[q].cpus
      requires k < Layers(pools[p].overcommitment) && l < Layers(pools[q].overcommitment)
      requires p != q || DeviceNumber(c, k, numCPU) != DeviceNumber(d, l, numCPU)
      requires t in Opens(p, c) && t in Opens(q, d)
      ensures exists run :: IsRun(run) && !Isolated(State(run))
    {
      var x, y := DeviceNumber(c, k, numCPU), DeviceNumber(d, l, numCPU);
      DecodeNumber(c, k, numCPU);
      DecodeNumber(d, l, numCPU);
      var run := TwoGrants(p, x, q, y);
      assert Grant("a", p, x) in State(run) && Grant("b", q, y) in State(run);
      assert IsGranted(State(run), "a", t) && IsGranted(State(run), "b", t);
      assert "a"[0] != "b"[0];
    }

    // ---- The shared pool ----

    /** A container with a device of a shared pool may run on all CPUs of that pool. */
    ghost predicate MayShare(grants: set<Grant>, container: string, t: nat) {
      exists g :: g in grants && g.container == container && g.pool in shared && t in shared[g.pool].cpus
    }

    /** No granted CPU is open to any user of a shared pool. */
    ghost predicate OffShared(grants: set<Grant>)
      requires numCPU > 0
    {
      forall a, b, t :: !(IsGranted(grants, a, t) && MayShare(grants, b, t))
    }

    /** A condition on the configuration alone: no shared pool lists a CPU that a device
        opens, be it the CPU itself or, in a multiThreaded pool, a sibling. */
    ghost predicate SharedListsNone() {
      forall p, c, s | p in pools && c in pools[p].cpus && s in shared :: Opens(p, c) !! shared[s].cpus
    }

    /** Granted CPUs stay off the shared pools in every reachable state exactly when the
        shared pools list none of the CPUs that the devices open. */
    lemma OffSharedExactly()
      requires Valid()
      ensures SharedListsNone() <==> forall run | IsRun(run) :: OffShared(State(run))
    {
      if SharedListsNone() {
        forall run | IsRun(run) ensures OffShared(State(run)) {
          InvariantHolds(run);
          NoneListed(State(run));
        }
      } else {
        var p, c, s :| p in pools && c in pools[p].cpus && s in shared && !(Opens(p, c) !! shared[s].cpus);
        var t :| t in Opens(p, c) && t in shared[s].cpus;
        DecodeNumber(c, 0, numCPU);
        assert |shared[s].cpus - {t}| < |shared[s].cpus|;
        var run := TwoGrants(p, c, s, 0);
        assert Grant("a", p, c) in State(run) && Grant("b", s, 0) in State(run);
        assert IsGranted(State(run), "a", t) && MayShare(State(run), "b", t);
      }
    }

    lemma NoneListed(grants: set<Grant>)
      requires Valid() && Invariant(grants) && SharedListsNone()
      ensures OffShared(grants)
    {
      forall a, b, t ensures !(IsGranted(grants, a, t) && MayShare(grants, b, t)) {
        if g :| g in grants && g.container == a && t in Opens(g.pool, Cpu(g)) {
          GrantDecodes(grants, g);
        }
      }
    }

    // ---- The default pool ----

    /** No granted CPU is among these, to which containers without pool resources are
        restricted. */
    ghost predicate OffDefault(grants: set<Grant>, cpus: CPUSet)
      requires numCPU > 0
    {
      forall a, t | t in cpus :: !IsGranted(grants, a, t)
    }

    /** A condition on the configuration alone: they have none of the CPUs that devices open. */
    ghost predicate ListsNone(cpus: CPUSet) {
      forall p, c | p in pools && c in pools[p].cpus :: Opens(p, c) !! cpus
    }

    /** Granted CPUs stay off them in every reachable state exactly under that condition. */
    lemma OffDefaultExactly(cpus: CPUSet)
      requires Valid()
      ensures ListsNone(cpus) <==> forall run | IsRun(run) :: OffDefault(State(run), cpus)
    {
      if ListsNone(cpus) {
        forall run | IsRun(run) ensures OffDefault(State(run), cpus) {
          InvariantHolds(run);
          OffByEntry(State(run), cpus);
        }
      } else {
        var p, c :| p in pools && c in pools[p].cpus && !(Opens(p, c) !! cpus);
        var t :| t in Opens(p, c) && t in cpus;
        DecodeNumber(c, 0, numCPU);
        var run := OneGrant(p, c);
        assert Grant("a", p, c) in State(run) && IsGranted(State(run), "a", t);
        assert !OffDefault(State(run), cpus);
      }
    }

    lemma OffByEntry(grants: set<Grant>, cpus: CPUSet)
      requires Valid() && Invariant(grants) && ListsNone(cpus)
      ensures OffDefault(grants, cpus)
    {
      forall a, t | t in cpus ensures !IsGranted(grants, a, t) {
        if g :| g in grants && g.container == a && t in Opens(g.pool, Cpu(g)) {
          GrantDecodes(grants, g);
        }
      }
    }

    /** The documented set-up of exclusive and cloudphone pools: no overcommitment, disjoint
        pools and one hardware thread per core listed in them. Shared and default pools may
        list all threads of a core. */
    ghost predicate Documented() {
      && DisjointPools()
      && (forall p | p in pools :: pools[p].overcommitment <= 1)
      && (forall p, c, q, d | p in pools && c in pools[p].cpus && q in pools && d in pools[q].cpus && c != d ::
            !Siblings(cores, c, d))
    }

    /** It keeps all containers apart in every run, siblings included. */
    lemma DocumentedIsolates(run: seq<Event>)
      requires Valid() && Documented() && IsRun(run)
      ensures Isolated(State(run))
    {
      forall p, c, q, d | p in pools && c in pools[p].cpus && q in pools && d in pools[q].cpus && (p != q || c != d)
        ensures Apart(p, c, q, d)
      {
        assert c != d && !Siblings(cores, c, d) && !Siblings(cores, d, c);
        forall t ensures !(t in Opens(p, c) && t in Opens(q, d)) {
          if t in Opens(p, c) && t in Opens(q, d) {
            OpensMeaning(p, c, t);
            OpensMeaning(q, d, t);
          }
        }
      }
      IsolatedExactly();
    }

    lemma OpensMeaning(p: string, c: nat, t: nat)
      ensures t in Opens(p, c) ==> t == c || Siblings(cores, c, t)
    {
      if t in Opens(p, c) && t != c {
        assert HasSiblingIn(cores, {c}, t);
      }
    }
  }

  lemma KindsApart(p: string)
    ensures HasCpuDevices(p) ==> DeterminePoolType(p) != SHARED_POOL_ID
  {
    assert |SHARED_POOL_ID| == 6 && |EXCLUSIVE_POOL_ID| == 9 && |CLOUDPHONE_POOL_ID| == 10;
  }

  /** The pools from which the setter may take the CPUs of containers without pool resources
      have none of the CPUs that devices open. */
  ghost predicate DefaultsApart(config: PoolConfig, node: Node) {
    forall d | Matches(config, DEFAULT_POOL_ID, d) :: node.ListsNone(config[d].cpus)
  }

  /** Containers are isolated from one another, from the users of shared pools and from those
      of the default pool, whichever the setter selects. */
  ghost predicate AllApart(config: PoolConfig, node: Node, grants: set<Grant>)
    requires node.numCPU > 0
  {
    && node.Isolated(grants) && node.OffShared(grants)
    && forall d | Matches(config, DEFAULT_POOL_ID, d) :: node.OffDefault(grants, config[d].cpus)
  }

  /** For a whole pool configuration: that holds in every run exactly under the three
      conditions on the configuration. */
  lemma ConfigIsolatedExactly(config: PoolConfig, numCPU: nat, cores: Cores)
    requires numCPU > 0 && forall p, c | p in config && HasCpuDevices(p) && c in config[p].cpus :: c < numCPU
    ensures var node := Node.FromConfig(config, numCPU, cores);
      && node.Valid()
      && (node.Separated() && node.SharedListsNone() && DefaultsApart(config, node)
          <==> forall run | node.IsRun(run) :: AllApart(config, node, Node.State(run)))
  {
    var node := Node.FromConfig(config, numCPU, cores);
    forall p | p in node.pools ensures p !in node.shared {
      KindsApart(p);
    }
    ApartExactly(config, node);
  }

  lemma DefaultsApartExactly(config: PoolConfig, node: Node)
    requires node.Valid()
    ensures DefaultsApart(config, node) <==> forall d, run {:trigger node.OffDefault(Node.State(run), config[d].cpus)} |
      Matches(config, DEFAULT_POOL_ID, d) && node.IsRun(run) :: node.OffDefault(Node.State(run), config[d].cpus)
  {
    if DefaultsApart(config, node) {
      forall d, run | Matches(config, DEFAULT_POOL_ID, d) && node.IsRun(run)
        ensures node.OffDefault(Node.State(run), config[d].cpus)
      {
        node.OffDefaultExactly(config[d].cpus);
      }
    } else {
      var d :| Matches(config, DEFAULT_POOL_ID, d) && !node.ListsNone(config[d].cpus);
      node.OffDefaultExactly(config[d].cpus);
      var run :| node.IsRun(run) && !node.OffDefault(Node.State(run), config[d].cpus);
    }
  }

  lemma ApartExactly(config: PoolConfig, node: Node)
    requires node.Valid()
    ensures node.Separated() && node.SharedListsNone() && DefaultsApart(config, node)
       <==> forall run | node.IsRun(run) :: AllApart(config, node, Node.State(run))
  {
    node.IsolatedExactly();
    node.OffSharedExactly();
    DefaultsApartExactly(config, node);
    if forall run | node.IsRun(run) :: AllApart(config, node, Node.State(run)) {
      forall run | node.IsRun(run) ensures node.Isolated(Node.State(run)) && node.OffShared(Node.State(run)) {
        assert AllApart(config, node, Node.State(run));
      }
      forall d, run | Matches(config, DEFAULT_POOL_ID, d) && node.IsRun(run)
        ensures node.OffDefault(Node.State(run), config[d].cpus)
      {
        assert AllApart(config, node, Node.State(run));
      }
    }
  }

  /** Sibling expansion works CPU by CPU, so a container's set is what its devices open. */
  lemma ExpandedByMember(s: CPUSet, cores: Cores, t: nat)
    ensures t in AddSiblings(s, cores) <==> exists c :: c in s && t in AddSiblings({c}, cores)
  {
    if c :| c in s && t in AddSiblings({c}, cores) {
      if t != c {
        assert HasSiblingIn(cores, {c}, t);
      }
    }
    if t in AddSiblings(s, cores) {
      if t in s {
        assert t in AddSiblings({t}, cores);
      } else {
        var c :| c in s && Siblings(cores, c, t);
        assert c in {c};
        assert HasSiblingIn(cores, {c}, t);
      }
    }
  }
}
