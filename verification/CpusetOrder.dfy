/** Which CPU sets the setter may decide on for a container, over all orders in which Go
    visits its requests and the pools, and when there is only one. */
module CpusetOrder {
  import opened Wrappers
  import opened CpuSets
  import opened CorrectCpuset
  import opened Pools

  /** A resource at which the loop ends. */
  ghost predicate IsStopper(c: Container, r: string)
    requires c.Valid()
  {
    && r in c.resources
    && (SetterKind(r) == CloudphoneKind || (SetterKind(r) == ExclusiveKind && c.Allocated(r) == None))
  }

  ghost predicate MayStop(c: Container, r: string, decision: Decision)
    requires c.Valid() && IsStopper(c, r)
  {
    if SetterKind(r) == CloudphoneKind then c.MayDecideCloudphone(r, decision) else decision == Undecidable
  }

  ghost predicate MayStopWith(c: Container, decision: Decision)
    requires c.Valid()
  {
    exists r :: IsStopper(c, r) && MayStop(c, r, decision)
  }

  ghost predicate HasStopper(c: Container)
    requires c.Valid()
  {
    exists r :: IsStopper(c, r)
  }

  predicate NamesShared(resources: set<string>, r: string) {
    r in resources && SetterKind(r) == SharedKind
  }

  predicate NamesExclusive(resources: set<string>, r: string) {
    r in resources && SetterKind(r) == ExclusiveKind
  }

  /** The shared CPUs the setter may end up with, from these of the container's resources. */
  ghost predicate MayShare(c: Container, resources: set<string>, shared: CPUSet) {
    if exists r :: NamesShared(resources, r) then c.setter.MayBeShared(shared) else shared == {}
  }

  /** What an exclusive resource may contribute, siblings included. */
  ghost predicate MayOwn(c: Container, r: string, exclusive: CPUSet)
    requires c.Valid() && NamesExclusive(c.resources, r)
  {
    c.Allocated(r).Some? && c.setter.MayExpand(r, c.Allocated(r).value, exclusive)
  }

  ghost predicate OwnsFrom(c: Container, resources: set<string>, r: string, exclusive: CPUSet)
    requires c.Valid() && resources <= c.resources
  {
    NamesExclusive(resources, r) && MayOwn(c, r, exclusive)
  }

  /** The exclusive CPUs it may end up with: those of any one of the exclusive resources. */
  ghost predicate MayHaveExclusive(c: Container, resources: set<string>, exclusive: CPUSet)
    requires c.Valid() && resources <= c.resources
  {
    if exists r :: NamesExclusive(resources, r)
    then exists r :: OwnsFrom(c, resources, r, exclusive)
    else exclusive == {}
  }

  /** The two sums and the result they may lead to. */
  ghost predicate MaySum(c: Container, shared: CPUSet, exclusive: CPUSet, cgroup: CPUSet)
    requires c.Valid()
  {
    && MayShare(c, c.resources, shared) && MayHaveExclusive(c, c.resources, exclusive)
    && c.setter.MayCombine(shared, exclusive, cgroup)
  }

  /** The possible decisions, without any order: that of some stopping resource if there is
      one, else the shared CPUs with those of some exclusive resource, or the default pool. */
  ghost predicate IsPossible(c: Container, decision: Decision)
    requires c.Valid()
  {
    if HasStopper(c) then MayStopWith(c, decision)
    else exists shared, exclusive ::
      decision.Decided? && decision.config == decision.cgroup && MaySum(c, shared, exclusive, decision.cgroup)
  }

  // ---- Every order leads to a possible decision ----

  ghost predicate Fits(c: Container, seen: set<string>, progress: Progress)
    requires c.Valid() && seen <= c.resources
  {
    match progress
    case Stopped(decision) => exists r :: r in seen && IsStopper(c, r) && MayStop(c, r, decision)
    case Going(shared, exclusive) =>
      && (forall r | r in seen :: !IsStopper(c, r))
      && MayShare(c, seen, shared) && MayHaveExclusive(c, seen, exclusive)
  }

  lemma SharedAdded(c: Container, seen: set<string>, r: string, before: CPUSet, after: CPUSet)
    requires MayShare(c, seen, before)
    requires if SetterKind(r) == SharedKind then c.setter.MayBeShared(after) else after == before
    ensures MayShare(c, seen + {r}, after)
  {
    if SetterKind(r) == SharedKind {
      assert NamesShared(seen + {r}, r);
    } else {
      assert forall x :: NamesShared(seen + {r}, x) <==> NamesShared(seen, x);
    }
  }

  lemma ExclusiveAdded(c: Container, seen: set<string>, r: string, before: CPUSet, after: CPUSet)
    requires c.Valid() && seen <= c.resources && r in c.resources && MayHaveExclusive(c, seen, before)
    requires if SetterKind(r) == ExclusiveKind then MayOwn(c, r, after) else after == before
    ensures MayHaveExclusive(c, seen + {r}, after)
  {
    if SetterKind(r) == ExclusiveKind {
      assert NamesExclusive(seen + {r}, r) && OwnsFrom(c, seen + {r}, r, after);
    } else {
      assert forall x :: NamesExclusive(seen + {r}, x) <==> NamesExclusive(seen, x);
      if x :| OwnsFrom(c, seen, x, before) {
        assert OwnsFrom(c, seen + {r}, x, after);
      }
    }
  }

  lemma FitsOn(c: Container, seen: set<string>, before: Progress, r: string, after: Progress)
    requires c.Valid() && seen <= c.resources && r in c.resources && Fits(c, seen, before) && c.MayVisit(before, r, after)
    ensures Fits(c, seen + {r}, after)
  {
    if before.Stopped? {
      var x :| x in seen && IsStopper(c, x) && MayStop(c, x, before.decision);
      assert x in seen + {r};
    } else if after.Stopped? {
      assert r in seen + {r} && IsStopper(c, r) && MayStop(c, r, after.decision);
    } else {
      SharedAdded(c, seen, r, before.shared, after.shared);
      ExclusiveAdded(c, seen, r, before.exclusive, after.exclusive);
    }
  }

  lemma {:induction false} ReachFits(c: Container, order: seq<string>, seen: set<string>, progress: Progress)
    requires c.Valid() && seen == (set x | x in order) && seen <= c.resources && c.MayReach(order, progress)
    ensures Fits(c, seen, progress)
  {
    if order != [] {
      var front, r := order[..|order| - 1], order[|order| - 1];
      var before :| c.MayReach(front, before) && c.MayVisit(before, r, progress);
      var earlier := set x | x in front;
      ReachFits(c, front, earlier, before);
      FitsOn(c, earlier, before, r, progress);
      assert order == front + [r];
      assert seen == earlier + {r};
    }
  }

  lemma DecisionMeaning(c: Container, decision: Decision)
    requires c.May(decision)
    ensures IsPossible(c, decision)
  {
    var order :| IsOrder(order, c.resources) && c.MayDecideBy(order, decision);
    var progress :| c.MayReach(order, progress) && c.MayEnd(progress, decision);
    assert c.resources == set x | x in order;
    ReachFits(c, order, c.resources, progress);
    if progress.Going? {
      assert MaySum(c, progress.shared, progress.exclusive, decision.cgroup);
    }
  }

  // ---- Every possible decision comes from some order ----

  /** SelectPool always answers. */
  lemma SelectsSome(pools: PoolConfig, prefix: string) returns (pool: Pool)
    ensures Selects(pools, prefix, pool)
  {
    if name :| Matches(pools, prefix, name) {
      pool := pools[name];
    } else {
      pool := NO_POOL;
    }
  }

  lemma SomeExpansion(c: Container, r: string) returns (exclusive: CPUSet)
    requires c.Valid() && NamesExclusive(c.resources, r) && !IsStopper(c, r)
    ensures MayOwn(c, r, exclusive)
  {
    var pool := SelectsSome(c.setter.pools, SecondPart(r));
    exclusive := c.setter.Expanded(pool, c.Allocated(r).value);
  }

  lemma SomeShared(c: Container, resources: set<string>) returns (shared: CPUSet)
    ensures MayShare(c, resources, shared)
  {
    var pool := SelectsSome(c.setter.pools, SHARED_POOL_ID);
    shared := if exists r :: NamesShared(resources, r) then pool.cpus else {};
  }

  /** Without stopping resources, any shared CPUs can be reached along any order. */
  lemma {:induction false} ReachShared(c: Container, order: seq<string>, seen: set<string>, shared: CPUSet) returns (exclusive: CPUSet)
    requires c.Valid() && seen == (set x | x in order) && seen <= c.resources && !HasStopper(c) && MayShare(c, seen, shared)
    ensures c.MayReach(order, Going(shared, exclusive))
    ensures (forall r :: !NamesExclusive(seen, r)) ==> exclusive == {}
  {
    if order == [] {
      assert forall r :: !NamesShared(seen, r);
      exclusive := {};
    } else {
      var front, r := order[..|order| - 1], order[|order| - 1];
      var earlier := set x | x in front;
      assert order == front + [r] && seen == earlier + {r} && r in seen;
      var before := shared;
      if SetterKind(r) == SharedKind {
        assert NamesShared(seen, r);
        before := SomeShared(c, earlier);
      } else {
        assert forall x :: NamesShared(seen, x) <==> NamesShared(earlier, x);
      }
      var was := ReachShared(c, front, earlier, before);
      exclusive := was;
      if SetterKind(r) == ExclusiveKind {
        assert NamesExclusive(seen, r) && NamesExclusive(c.resources, r) && !IsStopper(c, r);
        exclusive := SomeExpansion(c, r);
      }
      assert !IsStopper(c, r);
      assert forall x :: NamesExclusive(earlier, x) ==> NamesExclusive(seen, x);
      c.ReachNext(front, r, Going(before, was), Going(shared, exclusive));
    }
  }

  lemma {:induction false} Realised(c: Container, decision: Decision)
    requires c.Valid() && IsPossible(c, decision)
    ensures c.May(decision)
  {
    if HasStopper(c) {
      var r :| IsStopper(c, r) && MayStop(c, r, decision);
      StopFirst(c, r, decision);
    } else {
      var shared, exclusive :| decision.Decided? && decision.config == decision.cgroup
                               && MaySum(c, shared, exclusive, decision.cgroup);
      if r :| OwnsFrom(c, c.resources, r, exclusive) && exists x :: NamesExclusive(c.resources, x) {
        ExclusiveLast(c, r, shared, exclusive, decision.cgroup);
      } else {
        NoneExclusive(c, shared, decision.cgroup);
      }
    }
  }

  lemma StopFirst(c: Container, r: string, decision: Decision)
    requires c.Valid() && IsStopper(c, r) && MayStop(c, r, decision)
    ensures c.May(decision)
  {
    var before, after := Going({}, {}), Stopped(decision);
    assert c.MayReach([], before) && c.MayVisit(before, r, after);
    assert IsOrder<string>([], {});
    c.StopDecides([], {}, r, before, after);
  }

  lemma OthersShare(c: Container, others: set<string>, r: string, shared: CPUSet)
    requires c.resources == others + {r} && SetterKind(r) != SharedKind && MayShare(c, c.resources, shared)
    ensures MayShare(c, others, shared)
  {
    assert forall x :: NamesShared(others, x) <==> NamesShared(c.resources, x);
  }

  lemma ReachesWith(c: Container, rest: seq<string>, others: set<string>, r: string, shared: CPUSet, exclusive: CPUSet)
    requires c.Valid() && !HasStopper(c) && OwnsFrom(c, c.resources, r, exclusive)
    requires IsOrder(rest, others) && others <= c.resources && MayShare(c, others, shared)
    ensures c.MayReach(rest + [r], Going(shared, exclusive))
  {
    assert others == set x | x in rest;
    var was := ReachShared(c, rest, others, shared);
    c.ReachNext(rest, r, Going(shared, was), Going(shared, exclusive));
  }

  lemma ExclusiveLast(c: Container, r: string, shared: CPUSet, exclusive: CPUSet, cgroup: CPUSet)
    requires c.Valid() && !HasStopper(c) && OwnsFrom(c, c.resources, r, exclusive)
    requires MayShare(c, c.resources, shared) && c.setter.MayCombine(shared, exclusive, cgroup)
    ensures c.May(Decided(cgroup, cgroup))
  {
    var others := c.resources - {r};
    var rest := SomeOrder(others);
    assert others + {r} == c.resources;
    OthersShare(c, others, r, shared);
    ReachesWith(c, rest, others, r, shared, exclusive);
    OrderOn(rest, others, r);
    c.EndDecides(rest + [r], shared, exclusive, cgroup);
  }

  lemma NoneExclusive(c: Container, shared: CPUSet, cgroup: CPUSet)
    requires c.Valid() && !HasStopper(c) && forall r :: !NamesExclusive(c.resources, r)
    requires MayShare(c, c.resources, shared) && c.setter.MayCombine(shared, {}, cgroup)
    ensures c.May(Decided(cgroup, cgroup))
  {
    var order := SomeOrder(c.resources);
    assert c.resources == set x | x in order;
    var exclusive := ReachShared(c, order, c.resources, shared);
    c.EndDecides(order, shared, exclusive, cgroup);
  }

  /** What the setter may answer for a container, over all orders of the requests and of the
      pools, is exactly what is possible without looking at any order. */
  lemma MayExactly(c: Container, decision: Decision)
    requires c.Valid()
    ensures c.May(decision) <==> IsPossible(c, decision)
  {
    if c.May(decision) {
      DecisionMeaning(c, decision);
    }
    if IsPossible(c, decision) {
      Realised(c, decision);
    }
  }

  /** There always is a decision. */
  lemma SomeDecision(c: Container) returns (decision: Decision)
    requires c.Valid()
    ensures c.May(decision)
  {
    if r :| IsStopper(c, r) {
      decision := SomeStop(c, r);
      assert IsPossible(c, decision);
    } else {
      var shared := SomeShared(c, c.resources);
      var exclusive: CPUSet := {};
      if r :| NamesExclusive(c.resources, r) {
        exclusive := SomeExpansion(c, r);
        assert OwnsFrom(c, c.resources, r, exclusive);
      }
      var pool := SelectsSome(c.setter.pools, DEFAULT_POOL_ID);
      var cgroup := if shared != {} || exclusive != {} then shared + exclusive else pool.cpus;
      decision := Decided(cgroup, cgroup);
      assert MaySum(c, shared, exclusive, cgroup);
    }
    Realised(c, decision);
  }

  lemma SomeStop(c: Container, r: string) returns (decision: Decision)
    requires c.Valid() && IsStopper(c, r)
    ensures MayStop(c, r, decision)
  {
    decision := Undecidable;
    if SetterKind(r) == CloudphoneKind && c.Allocated(r).Some? && c.Allocated(r).value != {} {
      var cpus := c.Allocated(r).value;
      var pool := SelectsSome(c.setter.pools, SecondPart(r));
      decision := Decided(cpus, Setter.CoresOnNode(pool.coreMap, NodeOf(pool.coreMap, List(cpus)[0])));
    }
  }

  // ---- When there is only one decision ----

  ghost predicate IsSum(c: Container, shared: CPUSet, exclusive: CPUSet)
    requires c.Valid()
  {
    MayShare(c, c.resources, shared) && MayHaveExclusive(c, c.resources, exclusive)
  }

  ghost predicate MayResult(c: Container, cgroup: CPUSet)
    requires c.Valid()
  {
    exists shared, exclusive :: MaySum(c, shared, exclusive, cgroup)
  }

  /** All selections that matter agree: non-empty sums are the same set, and if a sum can be
      empty, the default pools are alike and are that set, too. */
  ghost predicate SumsAgree(c: Container)
    requires c.Valid()
  {
    && (forall s, e, t, f | IsSum(c, s, e) && IsSum(c, t, f) && s + e != {} && t + f != {} :: s + e == t + f)
    && (IsSum(c, {}, {}) ==>
          && (forall x, y | c.setter.MayBeDefault(x) && c.setter.MayBeDefault(y) :: x == y)
          && (forall s, e, x | IsSum(c, s, e) && s + e != {} && c.setter.MayBeDefault(x) :: s + e == x))
  }

  lemma ResultOfSum(c: Container, shared: CPUSet, exclusive: CPUSet, cgroup: CPUSet)
    requires c.Valid() && IsSum(c, shared, exclusive)
    requires if shared + exclusive != {} then cgroup == shared + exclusive else c.setter.MayBeDefault(cgroup)
    ensures MayResult(c, cgroup)
  {
    assert shared + exclusive != {} <==> shared != {} || exclusive != {};
    assert MaySum(c, shared, exclusive, cgroup);
  }

  lemma SumOfResult(c: Container, cgroup: CPUSet) returns (shared: CPUSet, exclusive: CPUSet)
    requires c.Valid() && MayResult(c, cgroup)
    ensures IsSum(c, shared, exclusive)
    ensures if shared + exclusive != {} then cgroup == shared + exclusive else c.setter.MayBeDefault(cgroup)
    ensures shared + exclusive == {} ==> shared == {} && exclusive == {}
  {
    shared, exclusive :| MaySum(c, shared, exclusive, cgroup);
    assert shared + exclusive != {} <==> shared != {} || exclusive != {};
  }

  lemma OneResultExactly(c: Container)
    requires c.Valid()
    ensures HasOneResult(c) <==> SumsAgree(c)
  {
    if SumsAgree(c) {
      forall x, y | MayResult(c, x) && MayResult(c, y) ensures x == y {
        SameResult(c, x, y);
      }
    }
    if HasOneResult(c) {
      OneResultAgrees(c);
    }
  }

  lemma SameResult(c: Container, x: CPUSet, y: CPUSet)
    requires c.Valid() && SumsAgree(c) && MayResult(c, x) && MayResult(c, y)
    ensures x == y
  {
    var s, e := SumOfResult(c, x);
    var t, f := SumOfResult(c, y);
  }

  ghost predicate HasOneResult(c: Container)
    requires c.Valid()
  {
    forall x, y | MayResult(c, x) && MayResult(c, y) :: x == y
  }

  lemma NonEmptySums(c: Container, cpus: CPUSet, t: CPUSet, f: CPUSet)
    requires c.Valid() && HasOneResult(c) && MayResult(c, cpus) && IsSum(c, t, f) && t + f != {}
    ensures cpus == t + f
  {
    ResultOfSum(c, t, f, t + f);
  }

  lemma EmptySum(c: Container, cpus: CPUSet, other: CPUSet)
    requires c.Valid() && HasOneResult(c)
    requires IsSum(c, {}, {}) && c.setter.MayBeDefault(cpus)
    requires c.setter.MayBeDefault(other) || exists s, e :: IsSum(c, s, e) && s + e != {} && s + e == other
    ensures cpus == other
  {
    ResultOfSum(c, {}, {}, cpus);
    if s, e :| IsSum(c, s, e) && s + e != {} && s + e == other {
      ResultOfSum(c, s, e, other);
    } else {
      ResultOfSum(c, {}, {}, other);
    }
  }

  lemma OneResultAgrees(c: Container)
    requires c.Valid() && HasOneResult(c)
    ensures SumsAgree(c)
  {
    forall s, e, t, f | IsSum(c, s, e) && IsSum(c, t, f) && s + e != {} && t + f != {} ensures s + e == t + f {
      ResultOfSum(c, s, e, s + e);
      NonEmptySums(c, s + e, t, f);
    }
    if IsSum(c, {}, {}) {
      forall x, y | c.setter.MayBeDefault(x) && c.setter.MayBeDefault(y) ensures x == y {
        EmptySum(c, x, y);
      }
      forall s, e, x | IsSum(c, s, e) && s + e != {} && c.setter.MayBeDefault(x) ensures s + e == x {
        EmptySum(c, x, s + e);
      }
    }
  }

  /** All stopping resources, and all selections for them, lead to one decision. */
  ghost predicate StopsAgree(c: Container)
    requires c.Valid()
  {
    forall d, e | MayStopWith(c, d) && MayStopWith(c, e) :: d == e
  }

  /** The same for the CPU sets they lead to, errors aside. */
  ghost predicate StopSetsAgree(c: Container)
    requires c.Valid()
  {
    forall d, e | MayStopWith(c, d) && MayStopWith(c, e) && d.Decided? && e.Decided? :: d.cgroup == e.cgroup
  }

  ghost predicate HasOneDecision(c: Container) {
    forall d, e | c.May(d) && c.May(e) :: d == e
  }

  ghost predicate HasOneSet(c: Container) {
    forall x, y | c.MayHold(x) && c.MayHold(y) :: x == y
  }

  /** The condition under which the container's CPU set does not depend on any order. */
  ghost predicate SetsAgree(c: Container)
    requires c.Valid()
  {
    if HasStopper(c) then StopSetsAgree(c) else SumsAgree(c)
  }

  /** The setter has one possible decision exactly when the resources that end the loop
      agree or, without any, the sums do, under every selection of pools. */
  lemma OneDecisionExactly(c: Container)
    requires c.Valid()
    ensures HasOneDecision(c) <==> if HasStopper(c) then StopsAgree(c) else SumsAgree(c)
  {
    if HasStopper(c) {
      StopsAreDecisions(c);
    } else {
      OneResultExactly(c);
      ResultsAreDecisions(c);
    }
  }

  lemma StopsAreDecisions(c: Container)
    requires c.Valid() && HasStopper(c)
    ensures forall d {:trigger c.May(d)} {:trigger MayStopWith(c, d)} :: c.May(d) <==> MayStopWith(c, d)
  {
    forall d ensures c.May(d) <==> MayStopWith(c, d) {
      MayExactly(c, d);
    }
  }

  lemma ResultsAreDecisions(c: Container)
    requires c.Valid() && !HasStopper(c)
    ensures forall d :: c.May(d) ==> d.Decided? && d.config == d.cgroup && MayResult(c, d.cgroup)
    ensures forall x {:trigger MayResult(c, x)} :: MayResult(c, x) ==> c.May(Decided(x, x))
  {
    forall d | c.May(d) ensures d.Decided? && d.config == d.cgroup && MayResult(c, d.cgroup) {
      DecisionMeaning(c, d);
    }
    forall x | MayResult(c, x) ensures c.May(Decided(x, x)) {
      var s, e :| MaySum(c, s, e, x);
      assert IsPossible(c, Decided(x, x));
      Realised(c, Decided(x, x));
    }
  }

  /** It has at most one possible CPU set exactly under the same condition on sets. */
  lemma OneSetExactly(c: Container)
    requires c.Valid()
    ensures HasOneSet(c) <==> SetsAgree(c)
  {
    if HasStopper(c) {
      StopSets(c);
    } else {
      OneResultExactly(c);
      ResultsAreDecisions(c);
      forall x ensures c.MayHold(x) <==> MayResult(c, x) {
        if c.MayHold(x) {
          var config :| c.May(Decided(config, x));
        }
      }
    }
  }

  lemma StopSets(c: Container)
    requires c.Valid() && HasStopper(c)
    ensures HasOneSet(c) <==> StopSetsAgree(c)
  {
    StopsAreDecisions(c);
    if HasOneSet(c) {
      forall d | MayStopWith(c, d) && d.Decided? ensures c.MayHold(d.cgroup) {
        assert c.May(Decided(d.config, d.cgroup));
      }
    }
    if StopSetsAgree(c) {
      forall x, y | c.MayHold(x) && c.MayHold(y) ensures x == y {
        var config :| c.May(Decided(config, x));
        var other :| c.May(Decided(other, y));
      }
    }
  }

  predicate IsMulti(pool: Pool) {
    pool.htPolicy == MULTI_THREAD_POLICY
  }

  /** The exclusive CPUs of a resource come out the same under every selection of its pool
      exactly when they have no siblings but themselves or all pools whose names begin with
      the pool's name have one policy. */
  lemma OneExpansionExactly(s: Setter, r: string, cpus: CPUSet)
    requires '/' in r
    ensures (forall x, y | s.MayExpand(r, cpus, x) && s.MayExpand(r, cpus, y) :: x == y)
       <==> || AddSiblings(cpus, s.cores) == cpus
            || forall a, b | Matches(s.pools, SecondPart(r), a) && Matches(s.pools, SecondPart(r), b) ::
                 IsMulti(s.pools[a]) == IsMulti(s.pools[b])
  {
    var prefix := SecondPart(r);
    forall a | Matches(s.pools, prefix, a) ensures s.MayExpand(r, cpus, s.Expanded(s.pools[a], cpus)) {
      assert Selects(s.pools, prefix, s.pools[a]);
    }
    if a, b :| Matches(s.pools, prefix, a) && Matches(s.pools, prefix, b) && IsMulti(s.pools[a]) && !IsMulti(s.pools[b]) {
      assert s.Expanded(s.pools[a], cpus) == AddSiblings(cpus, s.cores) && s.Expanded(s.pools[b], cpus) == cpus;
    }
  }

  // ---- Ordinary containers and cloudphone containers ----

  /** A cloudphone resource decides when it is the only resource of a kind that the loop
      looks at. */
  lemma CloudphoneAlone(c: Container, r: string, decision: Decision)
    requires c.Valid() && r in c.resources && SetterKind(r) == CloudphoneKind && '/' in r
    requires forall x | x in c.resources && x != r :: SetterKind(x) == OtherKind
    ensures c.May(decision) <==> c.MayDecideCloudphone(r, decision)
  {
    MayExactly(c, decision);
    assert IsStopper(c, r);
  }

  /** A container with no cloudphone resource, all of whose exclusive resources can be read:
      the setter may want exactly the shared CPUs together with those of one exclusive
      resource, or the default pool when there are none. */
  lemma OrdinaryDecision(c: Container, decision: Decision)
    requires c.Valid() && forall r | r in c.resources :: SetterKind(r) != CloudphoneKind
    requires forall r | NamesExclusive(c.resources, r) :: c.Allocated(r).Some?
    ensures c.May(decision) <==> decision.Decided? && decision.config == decision.cgroup && MayResult(c, decision.cgroup)
  {
    MayExactly(c, decision);
    assert forall r :: IsStopper(c, r) ==> NamesExclusive(c.resources, r);
    assert !HasStopper(c);
  }
}
